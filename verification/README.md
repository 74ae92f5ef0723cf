# A verified model of the gateway's deterministic reference kernel

The gateway routes tasks to workers, keeps an audit ledger, adjudicates claims from
evidence, compiles and compacts context, compresses conversations behind a cache, and
combines the verdicts of evaluators.  These parts are deterministic, and each makes a
promise that spans many calls.  This project models them in Dafny and proves those
promises for all inputs and all runs.

Where the program changes state in steps the model does too: `CompressionCache`,
`EpistemicState`, `CalibrationStore` and `EventList` are classes, and route selection,
composition, graph search, compaction, the compression passes and the two numeric scans
are methods with loops.  Each is proved against a specification function or predicate, and
the theorems are about those.

| files | contents |
|---|---|
| `Routing.dfy`, `RoutingProperties.dfy` | least-cost admissible route selection refines a ranked list; safety, optimality, monotonicity, policy extension |
| `Ledger.dfy` | the hash-linked ledger; tamper evidence as a reduction to a hash collision |
| `Epistemic.dfy`, `Calibration.dfy` | four-valued adjudication, the claim store and its transition log; binned calibration error |
| `Context.dfy`, `Capsule.dfy` | dependency graph, breadth-first search and the compiled package; canonical state, capsule and validator |
| `CompressionCache.dfy`, `CacheHistory.dfy`, `CacheCapacity.dfy` | the LRU cache with expiry refines a recency list; histories; inclusion and hit monotonicity |
| `Dedup.dfy`, `Prune.dfy`, `PruneProperties.dfy`, `PrunePositions.dfy` | the rewriting passes over messages |
| `Outcomes.dfy`, `EvaluatorCompose.dfy`, `EvaluatorContract.dfy`, `EvaluatorTypes.dfy` | the algebra of evaluator results and their serialisation |
| `Anomalies.dfy`, `Pareto.dfy` | spike detection and the cost-quality frontier |
| `Base.dfy`, `Sorting.dfy` | shared datatypes; the stable sort and what is known of it |

`dafny verify dfyconfig.toml` checks the whole project.

## Findings

The proofs settle some points on which code and documentation, or expectation, differ.  The
model follows the code.

- A larger cache never has fewer hits in total even with expiry (`HitsMonotone`), but it can miss a
  single request that a smaller one hits.  It keeps every single hit exactly while no entry can have
  expired (`SingleHitsKeptExactly`, `HitLostAtExpiry`).
- Only the strict strategy makes composition associative always.  When the optimistic and the majority
  strategy do is stated exactly (`OptimisticGroupsIff`, `MajorityAssociatesIff`); majority fails on
  three results against one (`MajorityDoesNotAssociate`), the optimistic one on a group that blocks
  and an empty one (`OptimisticDoesNotAssociate`).
- `validate_result` accepts dictionaries on which `_from_dict` raises (`WellFormedCanBeUnreadable`);
  exactly which is stated by `ReadableExactly` and `WellFormedReadableExactly`.  Types of texts and
  numbers are checked by neither (`ReadableCanBeUntyped`).
- An empty optional string and unknown tier keys are lost in serialisation; so are metadata without
  timestamp and duration (`RoundTripExactly`, `EmptyModelIsLost`).
- The Pareto scan promises to drop only dominated points; it also drops ties, exactly as
  `FrontierVsDominance` states (`TieIsDropped`).
- Adding the local gateway to an empty allow-list narrows the policy to that gateway
  (`ExtensionOfEmptyAllowList`, `ExtensionCanLosePlans`).
- Capsule validation does not require all that the canonical state files: it does exactly when every
  filed claim carries a kind and a state (`FiledAreCheckedExactly`), which claims of the claim store
  do not (`FiledButNotChecked`).
- `prune_compress` returns its input when every message is blank and of an unprotected role, and only
  then repeated tool results stay (`ToolResultsOnce`, `RepeatedToolResultsCanStay`).
- A composed outcome need not be the one derived from the composed findings: exactly when is stated by
  `ComposedOutcomeIsDerivedExactly`.
- Negative evidence strengths and raw confidences are accepted, and for them a derived or calibrated
  confidence exceeds its source (`DerivedBoundedByPremises`, `DerivedCanExceedPremise`, `CalibratedConfidence`).
- `summarize_compress` means to preserve the last system and the last user message, and does so only for
  recent ones (`LastSurvivesExactly`, `SystemMessageCanBeLost`).

## Model

| member | source | states |
|---|---|---|
| Routing.SelectRoute | reference/epr/kernel.py:129-250 | The whole decision: rejected or clarification when mandatory acceptance is missing; otherwise `selected` followed by `fallbacks` is the ranked list of admissible plans and the status is `RouteSelected` exactly when that list is non-empty. The audit has one entry per worker, then one per verifier, in order, each saying whether the candidate got a plan and why not; decision id and explanation are those of the outcome |
| Routing.RankedExactly | reference/epr/kernel.py:165-245 | The ranked list contains a (worker, verifier) choice if and only if it is admissible, once each, strictly ordered by cost, latency, falling acceptance bound and then loop order |
| Routing.RankedUnique | reference/epr/kernel.py:239-245 | Any list with those properties is the ranked list, so they leave the procedure no freedom |
| Routing.ChoicesExactly | reference/epr/kernel.py:165-220 | The nested loops visit exactly the admissible choices, in loop order |
| Routing.SortedPlans | reference/epr/kernel.py:239-245 | Sorting the plans by their key and sorting the choices by the key of their plans agree, ties included |
| Routing.InferencePolicyReasons | reference/epr/kernel.py:28-61 | A reason is reported, once and in code order, if and only if its gateway or model-identity rule is violated; none for an action that is not a model |
| Routing.BaseReasons | reference/epr/kernel.py:64-95 | Reasons are exactly the violated worker rules, once each in code order, and there are none if and only if the worker meets every rule |
| Routing.VerifierReasons | reference/epr/kernel.py:98-126 | Reasons are exactly the violated verifier rules, once each in code order, and there are none if and only if the verifier is eligible for this worker |
| Routing.ListsUnique | reference/epr/kernel.py:64-126 | A list of exactly the applying reasons in code order is unique, so these contracts fix the reported list |
| Routing.VerifierOptions | reference/epr/kernel.py:177-187 | Without an independent-verification requirement the only option is no verifier; with it, exactly the eligible verifiers in candidate order |
| Routing.WorkerPlans | reference/epr/kernel.py:189-220 | The inner loop yields the plans of exactly this worker's admissible choices, in order |
| Routing.AssessWorker | reference/epr/kernel.py:165-225 | One round of the outer loop: its plans, and an audit entry that is admissible if and only if some plan of the worker is, with the reason otherwise |
| Routing.AuditVerifiers | reference/epr/kernel.py:227-234 | Every verifier is listed as not ranked, in order |
| RoutingProperties.PlansMeetConstraints | reference/epr/kernel.py:129-250 | Every plan ever offered, selected or fallback, is within the cost and latency limits, at or above the risk floor and at or above the requested probability, and has a verifier of another family exactly when the risk class needs one |
| RoutingProperties.SelectsBest | reference/epr/kernel.py:236-250 | A route is selected if and only if acceptance is specified and an admissible plan exists; the selected plan ranks no lower than any admissible plan |
| RoutingProperties.OffersExactlyTheAdmissible | reference/epr/kernel.py:239-248 | Selected plan plus fallbacks equal, as a multiset, the plans of all admissible choices, and are sorted |
| RoutingProperties.OfferedExactly | reference/epr/kernel.py:129-250 | A plan is offered if and only if acceptance is specified and some worker of the list, with a verifier where the risk class calls for one, makes it up and meets every rule; the rules are spelled out on the fields, with the risk floor and the requested probability as two bounds on worker and verifier each |
| RoutingProperties.StatusExactly | reference/epr/kernel.py:129-250 | On the fields alone: a mandatory criterion of kind `missing` gives `Rejected` or `ClarificationRequired` by the policy's behaviour; otherwise a route is selected if and only if some worker and verifier of the list meet every rule |
| RoutingProperties.RequiredBound | reference/epr/kernel.py:14-18 | The bound a decision reports is at least the risk floor and at least the requested probability, and is one of the two |
| RoutingProperties.AdmissibleExactly | reference/epr/kernel.py:28-220 | The procedure's notion of an admissible pair and the rules spelled out on the fields agree for every worker and verifier |
| RoutingProperties.PlanCostByField | reference/epr/kernel.py:9-11 | Wherever the list of cost fields is cut, a plan costs the sum of the parts; one field costs what the worker and the verifier have in it, 0 where it is absent |
| RoutingProperties.PlanMadeOf | reference/epr/kernel.py:191-218 | A plan adds the latencies of worker and verifier, takes the smaller of their acceptance bounds, and names both |
| RoutingProperties.OfferedInOrder | reference/epr/kernel.py:239-248 | Selected plan and fallbacks come in order of cost, at equal cost of latency, and at equal latency of falling acceptance bound |
| RoutingProperties.AuditByName | reference/epr/kernel.py:165-225 | The audit entry of a worker, on the fields alone: admissible if and only if it makes up some plan; otherwise exactly the rules it breaks in code order, and if it breaks none, the lack of a verifier or else the limits of the plan |
| RoutingProperties.WorkerBreaksExactly | reference/epr/kernel.py:28-95 | Each reason reported for a worker, in terms of the fields: both bounds instead of the larger, names equal up to the case of ASCII letters |
| RoutingProperties.VerifierBreaksExactly | reference/epr/kernel.py:28-126 | The same for a verifier |
| RoutingProperties.SelectionMonotone | reference/epr/kernel.py:129-250 | With more candidates, higher limits, a lower required bound or looser inference rules a found route is still found and never ranks worse or costs more |
| RoutingProperties.OrderIrrelevant | reference/epr/kernel.py:161-245 | Permuting or repeating candidates changes neither whether a route is found nor the selected cost, latency and bound |
| RoutingProperties.ExtensionRules | reference/gateway/local_policy.py:14-32 | Exactly which candidates the extended inference rules accept, for both kinds of allow-list |
| RoutingProperties.ExtensionLoosens | reference/gateway/local_policy.py:14-32 | Extending a policy with a non-empty gateway allow-list loosens it, so selection is monotone under it |
| RoutingProperties.GainedPlansAreLocal | reference/gateway/local_policy.py:14-32 | A plan gained by the extension uses a local model as worker or as verifier |
| RoutingProperties.ExtensionOfEmptyAllowList | reference/gateway/local_policy.py:14-32 | The exception: an empty allow-list means any gateway, and after the extension exactly the plans whose model actions are all local remain admissible |
| RoutingProperties.ExtensionCanLosePlans | reference/gateway/local_policy.py:14-32 | A contract, policy and remote model that is admissible, and no longer so after the extension |
| Ledger.VerifyChain | reference/epr/ledger.py:32-44 | Accepts exactly the chains in which every event has its position as sequence number, the previous event's hash and its own hash; otherwise names the first failing event and the first failing check |
| Ledger.ValidByName | reference/epr/ledger.py:32-44 | Validity on the records alone: every event holds its position as a number, the hash of its own content, and the hash of the content before it, `GENESIS` for the first |
| Ledger.EventList.AppendEvent | reference/epr/ledger.py:21-29 | Adds one event, linked to the last and hashed, at the end; changes nothing when the last event carries no hash; the result is valid if and only if the list was |
| Ledger.AppendedHolds | reference/epr/ledger.py:21-29 | The appended event keeps all fields but three, which hold its position, the hash of the last event or `GENESIS`, and the hash of its own content |
| Ledger.AppendKeepsValid | reference/epr/ledger.py:21-29 | Appending extends a valid chain to a valid chain and repairs no invalid one |
| Ledger.BuiltChainsVerify | reference/epr/ledger.py:21-44 | Every chain built by appending to the empty list verifies |
| Ledger.PrefixValid | reference/epr/ledger.py:32-44 | A prefix of a valid chain is valid |
| Ledger.TamperEvident | reference/epr/ledger.py:15-44 | Two valid non-empty chains of any lengths that end in the same hash are equal event for event, or contain two events whose hashed material differs and hashes alike |
| Ledger.OnlyPrefixesSurvive | reference/epr/ledger.py:32-44 | Without any assumption on the hash: a valid chain made only of events of another valid chain is a prefix of it |
| Ledger.DeletionRejected | reference/epr/ledger.py:32-44 | Deleting any event but the last is rejected, for any hash |
| Ledger.SwapRejected | reference/epr/ledger.py:32-44 | Swapping two events is rejected, for any hash |
| Ledger.EditRejected | reference/epr/ledger.py:32-44 | A chain that still verifies after one event but the last was changed exhibits a collision |
| Adjudication.StatusExactly | reference/gateway/epistemic.py:257-287 | Each of the four statuses is given if and only if a condition on single pieces of evidence holds; supported needs support from something other than a model assertion, at every threshold |
| Adjudication.AssessExactly | reference/gateway/epistemic.py:257-310 | On the fields alone, a missing strength counting as one half: confidence is the largest cited strength above one half, refutation the largest complement of one below it, each 0 without any; the two against the threshold give the status, where support needs evidence of a kind other than `model_assertion` |
| Adjudication.RefusedExactly | reference/epr/epistemic.py:11-27 | An assessment is refused if and only if evidence is missing or a strength or the threshold is outside [0, 1] |
| Adjudication.CitationOrderIrrelevant | reference/gateway/epistemic.py:257-287 | Reordering or repeating the cited evidence changes neither status nor confidence nor error |
| Adjudication.MoreEvidenceKnowsMore | reference/gateway/epistemic.py:257-287 | Citing more evidence moves the status only upwards in the order unknown below supported and refuted below conflicted, in spite of the clamp on model assertions |
| Adjudication.DerivedBoundedByPremises | reference/gateway/epistemic.py:357-395 | A derived claim is at most as confident as each premise if and only if no premise has a negative strength; it is refuted if and only if a premise is, supported if and only if no premise is refuted and all reach the threshold, and never conflicted |
| Adjudication.DerivedCanExceedPremise | reference/gateway/epistemic.py:357-395 | A derived claim that is more confident than its premise, which has strength -1 |
| Adjudication.DerivedExactly | reference/gateway/epistemic.py:357-424 | A premise below one half refutes the derived claim with full weight; otherwise its confidence is the least strength among the premises, and it is supported if and only if that reaches the threshold |
| Epistemic.Weigh | reference/gateway/epistemic.py:257-280 | One pass computes the strongest support and refutation, whether anything supports, and whether all that does is model assertions |
| Epistemic.WeighPremises | reference/gateway/epistemic.py:357-385 | One pass computes the weakest premise and whether any is refuted |
| Epistemic.EpistemicState.AddEvidence | reference/gateway/epistemic.py:206-219 | One step of the run model: stores the evidence under its id and changes nothing else |
| Epistemic.EpistemicState.AddClaim | reference/gateway/epistemic.py:237-315 | One step of the run model: stores the assessed claim and logs a transition exactly when the status changes; a call that raises changes nothing |
| Epistemic.EpistemicState.AddDerivedClaim | reference/gateway/epistemic.py:317-424 | The same for derived claims, with the assessment of the weakest premise |
| Epistemic.EpistemicState.GetClaimTransitions | reference/gateway/epistemic.py:446-450 | One step of the run model: returns the pending transitions in order and empties the log |
| Epistemic.EpistemicState.HasBlockingConflict | reference/gateway/epistemic.py:464-474 | True if and only if one of the ids is a stored claim in conflict |
| Epistemic.TransitionsTellTheStory | reference/gateway/epistemic.py:237-450 | Over every run, the drained batches followed by the pending log form for each claim an unbroken path from unknown to its present status without self-loops |
| Epistemic.StoryOnlyGrows | reference/gateway/epistemic.py:237-450 | What drained and pending transitions tell after some operations is a prefix of what they tell after more, whatever fails or is drained in between |
| Epistemic.LastTransitionIsStatus | reference/gateway/epistemic.py:237-450 | The last transition of a claim on such a path carries its present status |
| Epistemic.ClaimsHaveCause | reference/gateway/epistemic.py:206-424 | Over every run a stored claim is what the last operation that set its id made of the evidence then there: statement, cited ids, status, confidence and refutation; evidence added later does not change it |
| Epistemic.TransitionsHaveCause | reference/gateway/epistemic.py:237-424 | Over every run each transition was logged by an operation that set its claim from the evidence it names and changed the status from the old one to the new |
| CalibrationSums.BinsPartition | reference/gateway/epistemic.py:108-131 | Every record falls in exactly one bin: totals, hits and counts of the bins add up to those of all records |
| CalibrationSums.BinExactly | reference/gateway/epistemic.py:108-117 | Bins are intervals: of n bins the one at i holds the predictions p with i / n <= p < (i + 1) / n, and the last one also 1 |
| CalibrationSums.BinCountsPositions | reference/gateway/epistemic.py:112-120 | A bin counts the records whose prediction is in its interval, and its hits are those of them that came true |
| CalibrationSums.EceIsSurplus | reference/gateway/epistemic.py:98-131 | The error is the sum over the bins of the absolute difference between confidences and hits, per record, so bins do not make up for each other; it is 0 with fewer than ten records |
| CalibrationSums.EceBoundsGap | reference/gateway/epistemic.py:98-131 | For every bin count, with at least 10 records, the absolute gap between mean confidence and accuracy is at most the error, which is at most 1 |
| CalibrationSums.OneBinIsGap | reference/gateway/epistemic.py:98-131 | With one bin the error equals the global gap |
| Calibration.FillBins | reference/gateway/epistemic.py:108-120 | The loop leaves in each bin the sum of confidences, the number of hits and the number of records whose prediction is in the interval of the bin |
| Calibration.CalibrationStore.RecordOutcome | reference/gateway/epistemic.py:84-92 | Appends the record to its model's list if and only if the confidence is in [0, 1]; otherwise changes nothing |
| Calibration.CalibrationStore.ComputeEce | reference/gateway/epistemic.py:98-131 | Returns the calibration error of the model's records, 0 with fewer than 10 |
| Calibration.CalibrationStore.IsCalibrated | reference/gateway/epistemic.py:133-140 | True if and only if there are 10 records and the error is at most the threshold; then the mean confidence is within the threshold of the accuracy |
| Calibration.CalibrationStore.CalibrationFactor | reference/gateway/epistemic.py:142-156 | The factor lies in [0, 1] |
| Calibration.CalibrationStore.CalibratedConfidence | reference/gateway/epistemic.py:158-168 | The calibrated confidence does not exceed the raw one if and only if that is non-negative, or there are 10 records and their mean confidence is at most their accuracy |
| Calibration.TenRecordsDecide | reference/gateway/epistemic.py:142-168 | With fewer than ten records the calibrated confidence is half the raw one, otherwise the raw one times the factor |
| Calibration.CalibratedMean | reference/gateway/epistemic.py:142-168 | Calibrating the mean confidence gives the smaller of mean confidence and accuracy: exactly the overconfidence is removed |
| Reachability.Reach | reference/gateway/context.py:293-303 | The breadth-first search terminates on every finite graph and returns exactly the nodes reachable from the root |
| Reachability.ClosedIsReachable | reference/gateway/context.py:293-303 | A closed set of reachable nodes with the root in it is the reachable set |
| ContextCompiler.BuildGraph | reference/gateway/context.py:248-286 | The adjacency map represents exactly the task-criterion, criterion-claim, criterion-evidence and claim-evidence edges; the task has no edges if and only if there are no criteria |
| ContextCompiler.ReachableExactly | reference/gateway/context.py:248-303 | From the task exactly the nodes of the criteria, the claims they cite, and the evidence cited by them or by those claims are reachable |
| ContextCompiler.DecodeDependencies | reference/gateway/context.py:208-238 | Filtering the reachable nodes by tag and cutting at the first colon gives back exactly the cited claims, evidence and criteria, whatever characters the ids hold |
| ContextCompiler.ReachableEvents | reference/gateway/context.py:309-322 | Selects, in order, exactly the events about the task or whose payload refers to a reachable id |
| ContextCompiler.Compile | reference/gateway/context.py:183-238 | The package holds the closed form of claims, evidence and events, sorted, and excluded plus included items equal the total; without criteria everything is included |
| ContextCompiler.PackageExactly | reference/gateway/context.py:183-322 | With criteria the package holds exactly the claims they refer to, the evidence they refer to or that those claims name as evidence or as premise, and the events about the task or mentioning one of these or a criterion |
| ContextCompiler.RelevantAppend | reference/gateway/context.py:309-322 | Selecting events keeps their order and number, wherever the list is cut |
| CapsuleValidator.ValidateContextCapsule | reference/epr/memory.py:8-60 | No errors if and only if all five inclusions and three invariants hold; every field with missing ids is reported with exactly those ids, sorted, and every unasserted invariant is named |
| CapsuleValidator.ConformsByName | reference/epr/memory.py:15-60 | A capsule conforms if and only if, on the fields alone, every active requirement, approved decision, unknown or conflicted fact and open assumption is listed in its field, with the evidence for and against it, every failed check is listed, and the three invariants are asserted |
| CapsuleValidator.DroppingIsNoticed | reference/epr/memory.py:15-60 | Removing an id from a valid capsule makes it invalid if and only if the id is required |
| Compaction.ClassifyClaims | reference/gateway/context.py:67-112 | Files every claim under the first heading it counts for, with the defaults of the canonical state |
| Compaction.BuildCanonicalState | reference/gateway/context.py:67-112 | The canonical state holds exactly the filed claims, the failed checks of the events and a handle for every piece of evidence |
| Compaction.StateByName | reference/gateway/context.py:67-112 | What is in the canonical state, id by id, on the records alone: kinds and states with their fallbacks, the criteria of mandatory checks that failed or were not run, and for each piece of evidence its content hash or the hash of its body |
| Compaction.Compact | reference/gateway/context.py:124-170 | Returns a capsule that carries the canonical state if and only if the claims' required ids are in the state; otherwise the validator's errors |
| Compaction.CompactionKeepsAuthoritativeState | reference/gateway/context.py:67-170 | For claims keyed by their id, the claims the validator requires are in the built state, in spite of different defaults, and the evidence it requires is there if and only if the evidence of every authoritative claim is registered |
| Compaction.CompactStore | reference/gateway/context.py:67-170 | Building the state and compacting it, for claims keyed by their id: refused if and only if some evidence of an authoritative claim is not registered; otherwise the capsule carries the built state |
| Compaction.FiledAreCheckedExactly | reference/epr/memory.py:15-30 | The validator requires all that the canonical state files if and only if every filed claim carries both a kind and a state of its own |
| Compaction.FiledButNotChecked | reference/gateway/context.py:85-97 | A claim without kind and state that is filed as unresolved and not required by the validator |
| CompressionCache.CompressionCache.constructor | reference/gateway/compression_cache.py:38-54 | Starts at the empty history: no slot, all counters at zero |
| CompressionCache.CompressionCache.Get | reference/gateway/compression_cache.py:56-82 | One step of the history model: dictionary and order list keep the same keys without duplicates; the recency list changes as the reference lookup says: a live slot moves to the end, an expired one is dropped; the value, the counters and the evictions follow |
| CompressionCache.CompressionCache.Put | reference/gateway/compression_cache.py:84-100 | One step of the history model: the recency list changes as the reference store says: the new slot goes to the end, a new key at capacity drops the first slot and counts one eviction |
| CompressionCache.CompressionCache.EvictOne | reference/gateway/compression_cache.py:130-135 | Drops the least recently used key from both structures, or nothing from an empty cache |
| CompressionCache.CompressionCache.GetStats | reference/gateway/compression_cache.py:102-115 | The size reported is the length of the recency list |
| CompressionCache.CompressionCache.Clear | reference/gateway/compression_cache.py:117-124 | Returns to the empty history |
| CompressionCache.CompressionCache.Serve | reference/gateway/compression.py:770-918 | Lookup, and on a miss compute and store: the cache changes by one request, and a hit returns the stored value |
| CompressionCache.LookupSlots | reference/gateway/compression_cache.py:56-82 | In each outcome of a lookup the two structures still agree and stand for the recency list of the reference lookup |
| CompressionCache.StoreSlots | reference/gateway/compression_cache.py:84-100 | The same for a store, within the capacity |
| RecencyList.LookupAt | reference/gateway/compression_cache.py:56-82 | By position: a slot stored less than the time to live ago moves to the end with its value returned, an older one is taken out, and all others stay in order |
| RecencyList.StoreAt | reference/gateway/compression_cache.py:84-100 | By position: a store replaces the slot of its key by a new one at the end, and for a new key drops the first slot exactly when the list is full |
| CacheHistory.Bookkeeping | reference/gateway/compression_cache.py:56-124 | Since the last clear: hits plus misses is the number of lookups, stores of a fresh key are the size plus the evictions, and the size never exceeds the capacity |
| CacheHistory.SlotsHoldLatestPut | reference/gateway/compression_cache.py:56-100 | Every slot holds the time and value of the latest store of its key |
| CacheHistory.HitReturnsLatestPut | reference/gateway/compression_cache.py:56-82 | A hit returns the value of the latest store of the key, younger than the time to live |
| CacheHistory.ListInUseOrder | reference/gateway/compression_cache.py:56-100 | The order list is strictly sorted by last store or successful lookup |
| CacheHistory.VictimIsLeastRecentlyUsed | reference/gateway/compression_cache.py:84-135 | The slot dropped at capacity is the one whose key was used least recently |
| CacheCapacity.HoldsMostRecent | reference/gateway/compression_cache.py:56-100 | Under lookup-then-store a cache of capacity n holds exactly the n most recently requested keys, whatever has expired |
| CacheCapacity.RecentExactly | reference/gateway/compression_cache.py:56-100 | The keys it speaks of are those requested so far, each once, in the order of their last requests |
| CacheCapacity.Inclusion | reference/gateway/compression_cache.py:56-100 | The keys of a smaller cache are the tail of the keys of a larger one after every request sequence |
| CacheCapacity.StepPotential | reference/gateway/compression_cache.py:56-100 | Amortised step: the hit of the smaller cache plus the change in the number of entries it holds fresher is at most the hit of the larger cache |
| CacheCapacity.HitsMonotone | reference/gateway/compression_cache.py:56-100 | Total hits never fall as capacity grows, even though entries expire, for every request sequence on a clock that does not run back |
| CacheCapacity.SingleHitsKeptExactly | reference/gateway/compression_cache.py:56-100 | For any two capacities and any time to live, a larger cache keeps every single hit of a smaller one on all request sequences that span at most d seconds if and only if d is below the time to live |
| CacheCapacity.HitKeptWhileFresh | reference/gateway/compression_cache.py:56-100 | If no earlier request is as long ago as the time to live, a hit of the smaller cache is a hit of the larger one |
| CacheCapacity.HitLostAtExpiry | reference/gateway/compression_cache.py:56-100 | For any two capacities, a request sequence that spans exactly the time to live and on which the smaller cache hits and the larger one misses |
| CacheCapacity.StampsArePuts | reference/gateway/compression_cache.py:84-100 | The time of every slot is the store time of some request |
| Messages.CountMessageTokens | reference/gateway/compression.py:378-392 | Adds up the token estimates of the contents |
| Messages.EstimateExactly | reference/gateway/compression.py:363-375 | One token for every four characters, rounded down, at least one for any text and none for the empty one |
| Messages.CountAppend | reference/gateway/compression.py:378-392 | The count of a list is that of its parts, and of one message that of its content |
| Messages.SqueezeRun | reference/gateway/compression.py:439-440 | A maximal run of k characters becomes one of min(k, 2), and the text on both sides is squeezed by itself |
| Messages.NormaliseShortens | reference/gateway/compression.py:436-441 | The two substitutions leave of every run of newlines and of spaces at most two characters, and every other run as it is, in order |
| Dedup.DedupCompress | reference/gateway/compression.py:400-443 | The loops compute dropping of consecutive duplicates, merging of role runs and normalisation, whose contents `CompressByRuns` gives |
| Dedup.CompressByRuns | reference/gateway/compression.py:400-443 | One message per maximal role run of the input, its content the join of the run's contents without consecutive duplicates, in which every run of newlines or spaces is shortened to two |
| Dedup.JoinAppend | reference/gateway/compression.py:423-431 | The join has a blank line between two neighbours and nothing anywhere else |
| Dedup.DropRepeatsSnoc | reference/gateway/compression.py:410-418 | A message is dropped if and only if its role and content are those of the message just before it |
| Dedup.RunsPartition | reference/gateway/compression.py:400-443 | The runs partition the input, each of one role, neighbours of different roles |
| Dedup.CompressIsTidy | reference/gateway/compression.py:400-443 | The output has no two neighbours of one role and no run of three newlines or three spaces |
| Dedup.CompressIdempotent | reference/gateway/compression.py:400-443 | A second pass changes nothing |
| Dedup.FixedExactlyWhenTidy | reference/gateway/compression.py:400-443 | A list is left unchanged if and only if it is tidy |
| Prune.LastIndices | reference/gateway/compression.py:465-474 | Finds the last system and the last user message, -1 without one |
| Prune.PruneCompress | reference/gateway/compression.py:451-517 | The loops compute the thinned list without repeated tool results, or the input when nothing is left |
| PrunePositions.PrunedByPosition | reference/gateway/compression.py:451-517 | Position by position, on the messages and the numbers 500, 2000 and 800 alone: a message stays if and only if it is not blank or is the last system or last user message, and does not repeat the id of an earlier tool result that stays; an earlier system message over 500 characters comes out as its first 500 and an ellipsis, a user message over 2000 as its first and last 800 around the marker, any other unchanged; if none stays the input comes back |
| PrunePositions.BothPasses | reference/gateway/compression.py:476-515 | The same for the two passes with any set of tool ids seen before |
| PrunePositions.BlankText | reference/gateway/compression.py:481-484 | A text is blank if and only if its parts are, and which ASCII characters are |
| PruneProperties.PruneIdempotent | reference/gateway/compression.py:451-517 | Pruning twice is pruning once |
| PruneProperties.PrunedTokens | reference/gateway/compression.py:363-517 | Pruning never raises the token estimate, even where 501 or 502 characters become 503 |
| PruneProperties.LastMessagesSurvive | reference/gateway/compression.py:451-517 | The last system message survives word for word, the last user message at most with its middle cut |
| PruneProperties.ToolResultsOnce | reference/gateway/compression.py:451-517 | At most one message per non-empty tool id remains if and only if that held before or some message is not blank or is of a protected role |
| PruneProperties.NothingLeftExactly | reference/gateway/compression.py:476-498 | The thinning pass leaves nothing if and only if every message is blank and of an unprotected role |
| PruneProperties.RepeatedToolResultsCanStay | reference/gateway/compression.py:517-517 | A list whose repeated tool results stay: two blank results of one call |
| PruneProperties.OrderPreserved | reference/gateway/compression.py:451-517 | The output is the input with messages left out or cut, in the same order |
| PruneProperties.AutoCompress | reference/gateway/compression.py:637-653 | The result is the pruned list if its estimate is strictly below that of the deduplicated one, else the latter; so its estimate is that of pruning after dedup |
| Summarize.SummarizeCompress | reference/gateway/compression.py:525-577 | The older messages become one summary, and the recent ones stay word for word, exactly when there are older ones and the estimate strictly falls; otherwise nothing changes |
| Summarize.KeepLastExactly | reference/gateway/compression.py:549-551 | How many messages are kept: the share of one minus the ratio, rounded down, at least 2 and at most all but 2; 2 of fewer than four |
| Summarize.SummarizedAt | reference/gateway/compression.py:554-571 | By position: one system message with the summary, then the kept messages unchanged |
| Summarize.LastSurvivesExactly | reference/gateway/compression.py:525-577 | The last message of a role survives if and only if nothing is summarised, or it is among the recent messages, or the summary equals it |
| Summarize.SystemMessageCanBeLost | reference/gateway/compression.py:554-577 | A list of four whose system message is replaced by an empty summary |
| Outcomes.ResolveStrict | reference/benchmark/evaluator_compose.py:55-60 | Returns the first entry of the precedence list that occurs |
| Outcomes.StrictByName | reference/benchmark/evaluator_compose.py:34-60 | By name: the first of block, gather_evidence, iterate, clarify and warn that occurs, otherwise pass |
| Outcomes.ResolveOptimistic | reference/benchmark/evaluator_compose.py:78-83 | Returns the mildest known outcome, `pass` without one |
| Outcomes.OptimisticByName | reference/benchmark/evaluator_compose.py:34-83 | By name: the first of pass, warn, clarify, iterate, gather_evidence and block that occurs, otherwise pass |
| Outcomes.ResolveMajority | reference/benchmark/evaluator_compose.py:63-75 | Counts, finds the maximum and breaks ties by severity |
| Outcomes.ResolveOutcome | reference/benchmark/evaluator_compose.py:86-94 | Dispatches on the strategy; an unknown one is strict |
| Outcomes.MajorityMeaning | reference/benchmark/evaluator_compose.py:63-75 | For outcomes of the contract, majority returns a most common outcome, and of those the most severe |
| Outcomes.StrictAssociates | reference/benchmark/evaluator_compose.py:55-60 | Resolving the resolutions of two groups is resolving them together |
| Outcomes.OptimisticAssociatesIff | reference/benchmark/evaluator_compose.py:78-83 | The optimistic strategy associates if and only if both groups hold a known outcome, or neither does, or a `pass` is among them |
| Outcomes.OptimisticGroupsIff | reference/benchmark/evaluator_compose.py:78-83 | For any grouping into any number of groups, the optimistic strategy associates if and only if every group holds a known outcome, or none does, or a `pass` is among them |
| Outcomes.OptimisticDoesNotAssociate | reference/benchmark/evaluator_compose.py:78-83 | It fails on a group that blocks and an empty one |
| Outcomes.MajorityAssociatesIff | reference/benchmark/evaluator_compose.py:63-75 | For outcomes of the contract, majority associates on two groups, not both empty, if and only if the more severe of their two majorities prevails in the union: no outcome is more frequent, and none as frequent is more severe |
| Outcomes.MajorityAssociatesByCounts | reference/benchmark/evaluator_compose.py:63-75 | The same in counts and ranks alone: the winner of all results wins in one group, and the winner of the other is not more severe |
| Outcomes.MajorityDoesNotAssociate | reference/benchmark/evaluator_compose.py:63-75 | It fails on concrete groups, three results against one, for any two outcomes of different severity |
| Findings.CanonicalMembers | reference/benchmark/evaluator_compose.py:163-173 | The composed findings are exactly the first finding of every id, strictly ordered by severity and id |
| Findings.CanonicalDetermined | reference/benchmark/evaluator_compose.py:163-173 | They depend only on which finding comes first for each id |
| Findings.SeverityOrder | reference/benchmark/evaluator_compose.py:163-173 | By name: critical before high before medium before low before info before all others, and ids in order within one severity and among the others |
| Findings.DetectContradictions | reference/benchmark/evaluator_compose.py:101-134 | The grouping loops report the conflicting subjects in order of first occurrence |
| Findings.ContradictionsExactly | reference/benchmark/evaluator_compose.py:101-134 | A subject is reported with the ids of all its findings if and only if it has a finding of a positive and one of a negative kind |
| Findings.GroupAppend | reference/benchmark/evaluator_compose.py:101-134 | The findings reported for a subject are all that are about it, in order |
| RoutingMerge.BestTierIsFirstMaximal | reference/benchmark/evaluator_compose.py:242-270 | The merged tier has the highest precedence among the recommendations and is one of them |
| RoutingMerge.TierByName | reference/benchmark/evaluator_compose.py:242-258 | By name: premium if anyone recommends it, otherwise the first recommended of standard and portfolio, otherwise budget if anyone does |
| RoutingMerge.MergeByName | reference/benchmark/evaluator_compose.py:242-292 | The merged recommendation on the tier names and the recommendations alone: that tier; reason and estimates of the first who recommends it; and per tier the largest tokens and the largest cost anyone estimates |
| RoutingMerge.EstimateIsLargest | reference/benchmark/evaluator_compose.py:267-280 | The estimate of a tier is there if and only if anyone gives one, and its tokens and its cost are the largest given |
| RoutingMerge.MergeAppend | reference/benchmark/evaluator_compose.py:242-292 | Merging is associative: all recommendations merge to the merge of the merges of the parts |
| RoutingMerge.MergeSingleton | reference/benchmark/evaluator_compose.py:242-292 | Merging a merged recommendation alone gives it back |
| EvaluatorCompose.ComposeResults | reference/benchmark/evaluator_compose.py:137-239 | The loops compute the composed result field by field |
| EvaluatorCompose.ComposedRouting | reference/benchmark/evaluator_compose.py:137-292 | The composed result carries a routing if and only if an input does, and then the merged one by tier names, for every strategy |
| EvaluatorCompose.ContributorsExactly | reference/benchmark/evaluator_compose.py:137-239 | The contributors listed are the evaluators' ids, each once, sorted |
| EvaluatorCompose.DigestAppend | reference/benchmark/evaluator_compose.py:137-239 | What strict composition needs to know of two groups together is determined by what it needs to know of each |
| EvaluatorCompose.StrictAssociative | reference/benchmark/evaluator_compose.py:137-239 | For any grouping into any number of groups, composing the composites gives the same outcome, findings, contradictions, routing, duration, artifacts and determinism as composing all results at once |
| EvaluatorCompose.EmptyIsIdentity | reference/benchmark/evaluator_compose.py:153-165 | The empty composition, placed before or after other results, changes none of these |
| EvaluatorCompose.ComposedOutcomeIsDerived | reference/benchmark/evaluator_compose.py:137-239 | If input outcomes are derived from their findings and equal ids have equal severities, the composed outcome is derived from the composed findings |
| EvaluatorCompose.ComposedOutcomeIsDerivedExactly | reference/benchmark/evaluator_compose.py:137-239 | If input outcomes are derived, the composed outcome is derived from the composed findings if and only if some finding of the deciding severity comes first for its id |
| EvaluatorCompose.WorstCanComeSecond | reference/benchmark/evaluator_compose.py:163-170 | That condition fails when of two findings with one id the milder comes first |
| EvaluatorCompose.ComposedOutcomeCoversFindings | reference/benchmark/evaluator_compose.py:137-239 | Without the condition on ids the composed outcome is still at least as severe as the composed findings |
| ContractJson.ToDict | reference/benchmark/evaluator_contract.py:305-323 | The step-by-step filling gives the dictionary of the result, fields at their defaults left out |
| ContractJson.ResultWritten | reference/benchmark/evaluator_contract.py:305-323 | Field by field: five fields are always written, the others if and only if there is something to say, the metadata if and only if they carry a time; no field besides |
| ContractJson.FindingWritten | reference/benchmark/evaluator_contract.py:121-140 | Field by field: four fields are always written, the other six if and only if they differ from their defaults, with their values; no field besides |
| ContractJson.RoutingWritten | reference/benchmark/evaluator_contract.py:229-246 | Field by field for a routing, the numbers if and only if they are not zero |
| ContractJson.MetadataWritten | reference/benchmark/evaluator_contract.py:263-274 | Field by field for the metadata; determinism is always written |
| ContractJson.RoundTripExactly | reference/benchmark/evaluator_contract.py:514-595 | Reading back a serialised result never fails, and gives the same result if and only if a present target phase and model are non-empty, tier keys are the three tiers, and metadata without timestamp or duration are otherwise at their defaults |
| ContractJson.NextActionBack | reference/benchmark/evaluator_contract.py:154-160 | A next action comes back if and only if its target phase is absent or non-empty |
| ContractJson.BreakdownBack | reference/benchmark/evaluator_contract.py:229-246 | A tier breakdown comes back if and only if its keys are tier keys |
| ContractJson.MetadataBack | reference/benchmark/evaluator_contract.py:263-274 | Written metadata come back if and only if the model is absent or non-empty |
| ContractJson.FindingBack | reference/benchmark/evaluator_contract.py:121-140 | Every finding comes back |
| ContractJson.ValidateResult | reference/benchmark/evaluator_contract.py:468-496 | Raises if and only if the outcome is a list or dictionary; otherwise reports exactly the errors that apply, of all five kinds, and none if and only if the dictionary is well formed |
| ContractJson.SerialisedIsWellFormed | reference/benchmark/evaluator_contract.py:468-496 | A serialised result passes validation if and only if its outcome is legal |
| ContractJson.ReadableExactly | reference/benchmark/evaluator_contract.py:514-595 | For every dictionary, whatever the types of its values: the loader raises unless every key it indexes without a default is there (phase, outcome, evaluator id and version, the four keys of a finding, the two of an evidence reference, the kind of a truthy next action, the tier and the trigger keys of a truthy routing), metadata are a dictionary, findings, evidence and triggers can be iterated, and the tier breakdown can be looked into; and only then |
| ContractJson.FalsyExactly | reference/benchmark/evaluator_contract.py:514-595 | The values read as absent by a truth test: null, false, zero and whatever is empty |
| ContractJson.WellFormedReadableExactly | reference/benchmark/evaluator_contract.py:468-595 | Which of these demands validation leaves unchecked: a dictionary that passes it is read without raising if and only if its findings, next action, routing and metadata meet theirs |
| ContractJson.WellFormedCanBeUnreadable | reference/benchmark/evaluator_contract.py:468-595 | Four dictionaries that pass validation and make the loader raise: a finding without its keys, a finding with null for its evidence, text for metadata, text for the next action |
| ContractJson.ReadableCanBeUntyped | reference/benchmark/evaluator_contract.py:468-595 | A dictionary that passes validation and is read with a number for its phase |
| ContractJson.EmptyModelIsLost | reference/benchmark/evaluator_contract.py:263-274 | A result whose model is the empty string is read back as another result |
| ContractJson.MadeResultsAreStorable | reference/benchmark/evaluator_contract.py:408-441 | What `make_result` makes passes validation and survives the round trip if and only if its model is not the empty string |
| ContractJson.DerivedOutcomeLegal | reference/benchmark/evaluator_contract.py:372-388 | A derived outcome is a legal one |
| EvaluatorTypes.DerivedByName | reference/benchmark/evaluator_contract.py:372-388 | By name: block if and only if a finding is critical, otherwise iterate if one is high, otherwise warn if one is medium, otherwise pass |
| Anomalies.DetectAnomalies | reference/gateway/cost_controls.py:173-198 | Reports exactly the positive costs above average plus two standard deviations, in order, and nothing for fewer than seven days; the number of anomalies, if any, is below a fifth of the days |
| Anomalies.SpikesExactly | reference/gateway/cost_controls.py:184-198 | A day is reported, with its cost, average, threshold and deviation, if and only if its cost is positive and above the threshold; days keep their order |
| Anomalies.SumsAppend | reference/gateway/cost_controls.py:179-184 | Sum and squared distances run over all days, wherever the series is cut |
| Anomalies.AverageTimesDays | reference/gateway/cost_controls.py:179-184 | Average and variance times the number of days are those sums |
| Anomalies.SpikesAreFew | reference/gateway/cost_controls.py:173-198 | One-sided Chebyshev bound: k >= 1 flagged days of n satisfy 5k < n |
| Anomalies.OneInFiveIsSharp | reference/gateway/cost_controls.py:173-198 | The bound is sharp: with costs on two levels, all high days are flagged if they are fewer than a fifth of the days, and none otherwise |
| Anomalies.FlatSeriesHasNone | reference/gateway/cost_controls.py:173-198 | A series without variance has no anomalies |
| Pareto.ComputeParetoFrontier | scripts/improvement_analyzer.py:776-810 | Collects the usable cohorts, sorts by falling accuracy and scans |
| Pareto.PointReads | scripts/improvement_analyzer.py:786-797 | A report reads as a point: absent fields are 0, mean cost and mean latency stand in for absent total and 95th percentile, and efficiency times the cost, at least 0.0001, is the accuracy |
| Pareto.PointsAppend | scripts/improvement_analyzer.py:784-797 | Every report without an error gives one point, in order |
| Pareto.ScanCosts | scripts/improvement_analyzer.py:802-810 | The running minimum keeps exactly the points cheaper than all before them |
| Pareto.FrontierExactly | scripts/improvement_analyzer.py:784-810 | A point is returned if and only if it is cheaper than every point of higher accuracy and every earlier point of equal accuracy |
| Pareto.FrontierVsDominance | scripts/improvement_analyzer.py:784-810 | No returned point is dominated; an undominated point is dropped if and only if a point ahead of it ties with it in cost or accuracy at no higher cost |
| Pareto.TieIsDropped | scripts/improvement_analyzer.py:784-810 | Of two equal points, neither dominated, the first is returned and the second is not |
| Pareto.FrontierCovers | scripts/improvement_analyzer.py:784-810 | For every point some returned point is at least as accurate and no dearer |
| Pareto.FrontierFalls | scripts/improvement_analyzer.py:784-810 | Returned costs strictly fall and accuracies do not rise |

## Left out

Contracts weaker than the code:

- Routing.SelectRoute: the copies of the plans are values, so aliasing is not captured.
- Routing.BaseReasons: reasons are records; the missing capabilities and the required bound are in them, but not the text with the bound rounded to three digits.
- Routing.VerifierReasons: reasons are records; the required bound is in them, but not the text with the bound rounded to three digits.
- ContextCompiler.Compile: the package id is not modelled, and claims and evidence are listed by their sorted ids, not as records in the order of the store.
- Epistemic.EpistemicState.AddEvidence: an evidence record is its kind and strength; ids are given, not generated, and the other fields are not modelled.
- Compaction.BuildCanonicalState: artifact hashes are left out, and the JSON text that is hashed when evidence carries no hash is a parameter of the evidence.
- Compaction.Compact: the capsule id, its time and the artifact hashes are left out.
- CompressionCache.CompressionCache.GetStats: the rounded hit rate is left out.
- CompressionCache.CompressionCache.Serve: the messages have the same key at `get` and at `put`, although dedup edits message dictionaries in place; and the key ignores the configuration, as in the code.
- Anomalies.DetectAnomalies: the rounding of the reported figures is left out, and the square root is a parameter constrained to be one.
- EvaluatorCompose.ComposeResults: names, summary and timestamp are parameters.

Modelling assumptions:

- SHA-256, canonical JSON bytes, UUIDs and clocks are parameters: an abstract hash function, given ids, and times that do not decrease where a statement says so.
- Floating point is modelled by reals, and costs by whole multiples of 1e-8 USD, on which the rounding to eight digits is the identity.
- Each public method is one atomic step; locks and threads are not part of this model.
- Messages are immutable values with a role, a string content and a tool id; list-valued content, absent roles and the editing of message dictionaries in place are not modelled.
- Case folding is that of ASCII letters.
- Library sorting and the two regular-expression substitutions are specification functions (`Sort`, `Squeeze`).
- Candidates carry the fields the code reads without a default; the remaining fields default as in the code.
- JSON field names are an enumeration; a serialised dictionary has field names or other names as keys, not both; and dictionary order is kept only where it reaches the output.
- Raising is one outcome: which exception it is, is not modelled.
- Whether an event payload refers to a reachable id (a substring search) is an abstract predicate.

Not modelled:

- The native bridge `rtk_bridge`, which is not part of this model: only the Python passes are.
- `AdaptiveRatio`, profiling, quality scores, strategy selection and the extractive summary: heuristics without a promise.
- `clear_claim_transitions`, which discards pending transitions, `conflicted_claim_ids`, `can_promote_by_corroboration` and the evidence factories: direct look-ups and resets.
- Cost summaries, forecasts and alerts, the SQL behind the cost trend, and all of the database layer.
- Loading and writing of result files, and composition from a directory: file I/O.
- HTTP servers, deployment, benchmark runners, configuration parsing and the remaining scripts: plumbing.
