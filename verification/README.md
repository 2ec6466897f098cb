# Verification of the Karpenter provider for OCI

This Dafny project models the parts of the provider where state, loops and orderings meet, and proves what they keep.
`dafny verify dfyconfig.toml` checks all of it.

| Part | Modules |
|---|---|
| Single-flight cache: any number of callers on one key, step by step; and the same cache with one caller at a time | `SingleFlight`, `Cache` |
| Drift detection: secondary-VNIC matching, five linked caches with their eviction cascade, cached checks confirmed on fresh data | `VnicMatching`, `LinkedCaches`, `DriftCaches`, `InstanceProvider`, `DriftDetection`, `DriftFlow`, `DriftMeaning` |
| Image selection, from the API or from the caches alone | `Sorting`, `ImageSelection`, `ImageMeaning`, `ImageCaching`, `ImageProvider` |
| Placement: the retry loop over proposals, and balance over runs of placements, failures included | `Placement`, `ProposalMeaning`, `Balance`, `PlacementBalance` |
| Capacity reservations: the usage ledger over a cached snapshot, and records for domains and fault domains mixed | `Decimals`, `UsageLedger`, `Reservations`, `MixedReservations`, `ReservationProvider`, `ResolutionMeaning` |
| Launch choice: price order, the fallback loop over the retry loop, offerings held back, memory estimates, measured memory | `PriceOrder`, `LaunchErrors`, `Launching`, `LaunchMeaning`, `OfferingMarks`, `MemoryModel`, `CapacityDiscovery` |

Objects whose fields the source updates are classes here, and each method's contract ties the new state to the old one.
What a method computes is a function of values, and the main results are lemmas about those functions or about all runs
of a step machine. The modules named `...Meaning` say what these functions come to without naming them, in terms of the
lists, images, offerings and configurations that go in.

How the source's surroundings appear:

- API calls are function parameters: a loader answers once per key within one operation. Where an operation spans
  several calls between which the cloud may change (`DriftFlow`), the answers are indexed by the step.
- The clock is a parameter. Page-wise listings are what they deliver before they end or fail.
- A nil pointer that the source would follow into a panic is the error `NilDereference`: a primary-VNIC flag that is
  nil, a boot-volume attachment without a volume, a reservation selector that is absent. For an empty list of proposals
  it is the launch error `Panic`.
- Map iteration order is arbitrary: a loop takes any remaining key.
- Float values are reals. Text rendered from them has no colon, and tells the numbers of some set apart, the sizes in
  use; six decimals do so for all numbers that have no more of them (`OfferingMarks.DecimalRenders`,
  `UsageLedger.SixDecimalsFaithful`). Hashes of selectors and image filters are opaque keys. The text key of a shape and
  its size is a datatype (`UsageLedger.Key`), which `UsageLedger.TextInjective` shows to be equal exactly when the texts
  are.
- The library sorts: `sort.SliceStable` is `Sorting.StableSort`; `sort.Slice` promises only a sorted permutation.

What the proofs say that the code's comments and documentation do not, or say differently:

- Single flight holds until a load fails or an entry is evicted while a caller is still inside: the mutex leaves the
  table after it is unlocked, so a waiter on the old mutex and a newcomer on a fresh one can load at once
  (`SingleFlight.OneFailureAllowsTwoLoads`, `SingleFlight.EvictionAllowsTwoLoads`). Without evictions, loads stored or
  under way exceed failures by at most one (`SingleFlight.LoadsBoundedByFailures`), and for every number of failures some
  run reaches that bound (`SingleFlight.FailuresAllowLoads`). With an
  eviction there is no bound: one is enough for any number of loads at once, although none fails
  (`SingleFlight.EvictionAllowsLoads`).
- Placement keeps a set of sites balanced as long as nothing fails there, whatever fails elsewhere
  (`PlacementBalance.PlacementsBalance`). Over all sites the bound can break: two sites, one refusing twice, end with
  none and two instances (`Balance.RefusalUnbalances`). If failures are decided by the site, it holds from every view and
  over every run exactly if no site or every site refuses (`PlacementBalance.BalancesIffNoneOrAllRefuse`).
- An instance type is passed over by the error of its last proposal alone: an earlier error that may not be skipped is
  forgotten (`Launching.SkippedIffLastSkippable`, `Launching.EarlierErrorForgotten`).
- The greedy VNIC matching finds a perfect matching whenever there is one, for every set of attached VNICs, exactly if no
  desired VNIC comes before another on its subnet that asks for a security group it does not ask for
  (`VnicMatching.GreedyCompleteIff`). Otherwise a correctly built instance can be reported as drifted.
- After a successful full image resolution the cached-only one gives the same image, except when some base image could
  not be read: full resolution passes such an image over, cached-only resolution gives up
  (`ImageProvider.ImageProvider.ResolveImageForShape`; `ImageCaching.UnreadableBaseSilencesCache` has such images).
- A resolution drops the ledger of a reservation exactly if it reads it: if a configuration names its OCID, even when it
  is cached, or names a selector that is not cached and lists it (`ReservationProvider.LedgerDroppedIff`). So a reservation
  configured by OCID is always reported without its ledger, and its last place can be given out twice
  (`ReservationProvider.ByIdOvercommits`). The ledger protects every reservation that is not read afresh,
  whatever else the resolution reads (`ReservationProvider.ProviderReportsRun`).
- A reservation may have records for the whole domain and for fault domains. A comment rules this out, but no code does,
  and a launch is then counted against both and admitted against one. The bound holds for every record over every run
  exactly if a request's records are not mixed so (`MixedReservations.BoundedIffUnmixed`); if they are, two launches can
  be enough to break it (`MixedReservations.LaunchesAloneOvercommit`). All matching records together stay within their
  total even then if only instances end that were launched since the snapshot
  (`MixedReservations.TotalNeverOvercommitted`), and otherwise need not
  (`MixedReservations.EarlierEndOvercommitsTotal`).
- A mark on the ledger is seen exactly if it is later than the snapshot and its key and fault domain count for the record
  (`Reservations.MarkSeenIff`); otherwise the last place of a reservation is given out twice
  (`Reservations.SecondLaunchAdmittedIff`).
- Price ordering is deterministic even if two instance types have the same name, because the sort is stable and each type
  has one entry per price (`PriceOrder.OrderedOnce`).

## Model

| member | source | states |
|---|---|---|
| SingleFlight.LoadsOnce | pkg/cache/cache.go:61-82 | In every interleaving without a failed load, eviction, expiry or `Set`, the loader is called at most once and every caller that returns gets its one value, which is in the cache |
| SingleFlight.LoadsBoundedByFailures | pkg/cache/cache.go:61-82 | Without evictions, loads that succeeded or are under way exceed failures by at most one, and the loader is called at most once more than twice the number of failures |
| SingleFlight.OneFailureAllowsTwoLoads | pkg/cache/cache.go:71-73 | A run in which one load fails and a waiter and a newcomer then load at the same time: unlocking comes before deleting the mutex |
| SingleFlight.FailuresAllowLoads | pkg/cache/cache.go:69-81 | For every n, a run without evictions in which n loads failed and n + 1 are under way, of 2 n + 1 that were started: both bounds are tight |
| SingleFlight.EvictionAllowsTwoLoads | pkg/cache/cache.go:71-73 | A run without a failure in which an eviction before the mutex is deleted lets two loads run at once |
| SingleFlight.EvictionAllowsLoads | pkg/cache/cache.go:69-81 | For every n, a run without a failure and with a single eviction in which n loads are under way at once |
| SingleFlight.ValuesAreSourced | pkg/cache/cache.go:153-164 | With failures and evictions allowed, every cached or returned value came from a successful load or a `Set`, and a failed load leaves the cache as it was |
| SingleFlight.NoDeadlock | pkg/cache/cache.go:69-73 | In every reachable state with a caller that has not returned, some caller can move or some loader is being waited for |
| SingleFlight.RunInv | pkg/cache/cache.go:61-82 | Every run keeps the invariant: holding a mutex agrees on both sides, values are sourced, loads are accounted for; and without evictions the bound on loads |
| SingleFlight.LocksAgreeStep | pkg/cache/cache.go:69-73 | Every event keeps the agreement between who holds a mutex and where callers stand |
| SingleFlight.BoundedStep | pkg/cache/cache.go:69-81 | Every event but an eviction keeps the bound that ties successful loads, mutexes and failures |
| SingleFlight.PutIsServed | pkg/cache/cache.go:102-104 | After a `Set`, over any events without an eviction or another store, the value stays cached and a new caller gets it without a load |
| Cache.GetOrLoadCache.GetOrLoad | pkg/cache/cache.go:61-82 | A cached value is served without a load and without a change; otherwise the loader is called, and its value kept unless it failed |
| Cache.GetOrLoadCache.GetCached | pkg/cache/cache.go:92-94 | Exactly the cached value, if there is one |
| Cache.GetOrLoadCache.Refresh | pkg/cache/cache.go:108-111 | Always loads; only a success replaces the entry |
| Cache.GetOrLoadCache.Set | pkg/cache/cache.go:102-104 | Writes one entry, without a callback |
| Cache.GetOrLoadCache.Evict | pkg/cache/cache.go:97-126 | Removes the entry and hands it to the callback exactly if it was there |
| VnicMatching.GreedySound | pkg/cloudprovider/drift.go:153-176 | Whatever the map order, "no drift" means a one-to-one assignment of all attached secondary VNICs with equal subnets and desired NSGs among the actual ones |
| VnicMatching.GreedyDecides | pkg/cloudprovider/drift.go:153-176 | If the sets of fitting VNICs are pairwise equal or disjoint and the counts agree, a run reports no drift if and only if a perfect matching exists (exchange argument) |
| VnicMatching.GreedyCompleteFrom | pkg/cloudprovider/drift.go:158-173 | If whatever fits an earlier desired VNIC also fits every later one that competes with it, each run serves all when a perfect matching exists |
| VnicMatching.GreedyCompleteIff | pkg/cloudprovider/drift.go:158-196 | The matching is complete on every set of attached VNICs exactly if no desired VNIC precedes one on its subnet with a security group it lacks |
| VnicMatching.NotSelectiveNotComplete | pkg/cloudprovider/drift.go:158-196 | Any other order has attached VNICs with a perfect matching and a run that reports drift |
| VnicMatching.MisfiledVnicServesTwice | pkg/cloudprovider/drift.go:163-164 | Why a VNIC's own id must be the id it was fetched under: otherwise the deletion misses and one VNIC serves twice |
| LinkedCaches.ForgetKeepsReferenced | pkg/providers/instance/drift_cache.go:39-52 | Forgetting lists with the children they name keeps every remaining child named by a remaining list |
| LinkedCaches.ReplaceKeepsReferenced | pkg/providers/instance/provider.go:462-471 | Replacing a list, which evicts the children of the old one, keeps every child named by a list |
| LinkedCaches.ForgetTwice | pkg/providers/instance/drift_cache.go:35-52 | Forgetting some lists and then others is forgetting them together, so the order of a cascade does not matter |
| DriftCaches.AttachmentCaches.EvictList | pkg/providers/instance/drift_cache.go:39-52 | Evicting a list forgets it and exactly the children it names |
| DriftCaches.AttachmentCaches.EvictUnseen | pkg/cache/cache.go:130-136 | Evicting all keys that were not seen, in any order, forgets just their lists and the children these name |
| DriftCaches.AttachmentCaches.List | pkg/providers/instance/provider.go:462-471 | A fresh listing replaces the cached list and evicts the children of the old one; a failed one changes nothing |
| DriftCaches.AttachmentCaches.ListCached | pkg/providers/instance/provider.go:498-504 | Serves the cached list or loads and keeps it |
| DriftCaches.AttachmentCaches.GetChild | pkg/providers/network/provider.go:507-531 | The cached or the refreshing read of a VNIC or boot volume |
| DriftCaches.DriftCaches.EvictInstance | pkg/providers/instance/drift_cache.go:35-52 | Evicting a cached instance forgets it, its lists and their children; evicting an absent one does nothing |
| InstanceProvider.InstanceProvider.EvictInstanceCaches | pkg/providers/instance/provider.go:617-627 | Nothing of the instance stays cached, whether or not the instance itself was |
| InstanceProvider.InstanceProvider.EvictInstanceIfGone | pkg/providers/instance/provider.go:448-452 | Evicts exactly for "not found" and for a terminated instance |
| InstanceProvider.InstanceProvider.GetInstance | pkg/providers/instance/provider.go:419-437 | A fresh read replaces the entry, evicts an instance that is gone, and keeps every cached child referenced |
| InstanceProvider.InstanceProvider.GetInstanceCached | pkg/providers/instance/provider.go:439-446 | The cached instance or a load, with the same eviction and the same invariant |
| InstanceProvider.InstanceProvider.CacheInstance | pkg/providers/instance/provider.go:454-460 | Launch caching writes one instance and keeps the invariant |
| InstanceProvider.InstanceProvider.ListCompartment | pkg/providers/instance/provider.go:582-615 | Live instances of node pools are returned and cached as they were listed, page by page until a page fails |
| InstanceProvider.LiveInMeans | pkg/providers/instance/provider.go:597-612 | Exactly the instances in the named compartments that have a node pool and an id and are not terminated are listed |
| InstanceProvider.InstanceProvider.EvictUnseen | pkg/providers/instance/provider.go:631-645 | Forgets exactly the ids that were not listed, in all five caches |
| InstanceProvider.InstanceProvider.DistinctMeans | pkg/providers/instance/provider.go:552-580 | Each named compartment is listed once and no other, as itself or, for an empty id, as the cluster's |
| InstanceProvider.InstanceProvider.ListAll | pkg/providers/instance/provider.go:552-580 | Fails exactly if some compartment fails, and otherwise adds exactly the listed ids to the instance cache |
| InstanceProvider.InstanceProvider.ListInstances | pkg/providers/instance/provider.go:552-645 | After a success the instance cache holds exactly the listed ids with instances as listed, both attachment caches only listed ids, and each surviving child is referenced; a failure part-way evicts nothing |
| InstanceProvider.InstanceProvider.DeleteInstance | pkg/providers/instance/provider.go:647-678 | The first poll that fails or finds the instance terminated decides result and caches, and without one the deletion times out; when it succeeds or the instance is unknown, nothing of it stays cached |
| DriftDetection.IsVnicNsgIdsMatch | pkg/cloudprovider/drift.go:178-196 | Whether every desired security group is among the actual ones |
| DriftDetection.MatchSecondVnics | pkg/cloudprovider/drift.go:153-175 | The loop over the map is some greedy run, and drift is reported exactly if it serves too few |
| DriftDetection.IsNetworkSecondVnicDrifted | pkg/cloudprovider/drift.go:137-176 | The verdict on the attached VNICs other than the primary, reading children through the cache |
| DriftDetection.IsInstanceNetworkDrifted | pkg/cloudprovider/drift.go:92-135 | The verdict on primary and secondary VNICs; only children of the list were added or refreshed, as the API has them |
| DriftDetection.IsInstanceBootVolumeDrifted | pkg/cloudprovider/drift.go:198-236 | The verdict on the earliest boot volume, with the same effect on the caches |
| DriftDetection.NoDriftIsMatched | pkg/cloudprovider/drift.go:137-196 | A network verdict of no drift yields a perfect matching of desired with attached secondary VNICs |
| DriftDetection.DriftIsUnmatched | pkg/cloudprovider/drift.go:137-196 | A reported secondary mismatch means that no perfect matching exists, if the desired VNICs are in selective order or the fitting sets are equal or disjoint |
| DriftMeaning.PrimaryReasons | pkg/cloudprovider/drift.go:96-125 | A primary mismatch is reported exactly if every VNIC attached to the subnet reads as not primary, a mismatch of groups exactly if the first primary one lacks a desired group, and no drift only if it carries them all |
| DriftMeaning.SecondaryOfMeans | pkg/cloudprovider/drift.go:141-151 | Exactly the attached VNICs that do not read as primary are secondary, and all must read |
| DriftMeaning.NoNetworkDriftMeans | pkg/cloudprovider/drift.go:92-176 | No network drift means that the first primary VNIC carries its groups and that the secondary ones can be assigned to the desired ones; in selective order exactly then |
| DriftMeaning.BootReasons | pkg/cloudprovider/drift.go:198-236 | Each boot-volume reason exactly, in the order of the checks; no drift exactly if the volume of the first earliest attachment has the desired encryption, size, key and performance |
| DriftFlow.InstanceStage | pkg/cloudprovider/cloud_provider.go:744-767 | Instance drift found on the cached instance is reported only if the fresh one shows it |
| DriftFlow.NetworkStage | pkg/cloudprovider/cloud_provider.go:769-802 | Network drift is reported only if freshly read data shows it; with current caches the stage decides as the API would |
| DriftFlow.BootStage | pkg/cloudprovider/cloud_provider.go:804-835 | The same for boot volumes |
| DriftFlow.IsDrifted | pkg/cloudprovider/cloud_provider.go:744-838 | Keeps every cached child referenced; a reported drift is confirmed by fresh data; from current caches the verdict is the one of reading everything from the API |
| DriftMeaning.NoDriftMeans | pkg/cloudprovider/cloud_provider.go:744-838 | From current caches, no drift is reported only if instance, network and boot volume are in order on the API, and in selective order always then |
| DriftMeaning.DriftIsReal | pkg/cloudprovider/cloud_provider.go:744-838 | A reported drift is a failed check of the fresh instance, or a network or boot volume that fresh data shows not to be in order |
| Sorting.StableSortPositions | pkg/providers/image/provider.go:350-352 | A stable sort is an ordered permutation in which equivalent elements keep their order |
| ImageSelection.ScoreIsSkew | pkg/providers/image/provider.go:455-481 | The score is not negative exactly if the Kubernetes version skew policy lets the kubelet run against the cluster, and then it is the number of minor versions between them |
| ImageSelection.SortedRanks | pkg/providers/image/provider.go:349-352 | After the first sort, images rank newest first and then in list order |
| ImageSelection.SkewSortRanks | pkg/providers/image/provider.go:403-411 | The second sort ranks candidates by skew first and keeps the earlier ranking within equal skew |
| ImageSelection.FirstIsPreferred | pkg/providers/image/provider.go:169-194 | The first ranked image that supports the shape is preferred to every other, except those whose shapes read without this one |
| ImageSelection.SelectedIsBest | pkg/providers/image/provider.go:162-195 | The selected image is eligible, which `ImageMeaning` spells out, and every other eligible image has more skew, or as much and is older, or is as old and stands later in the list, or its shapes read without this one |
| ImageSelection.SelectsIffEligible | pkg/providers/image/provider.go:162-195 | When lists, shape sets and versions can be read, an image is selected if and only if a listed image supports the shape and, where versions matter, may run against the cluster |
| ImageMeaning.KubeletVersionMeans | pkg/providers/image/provider.go:428-453 | An image's version is read from the first tag on the way along its base images |
| ImageMeaning.VersionsMatterMeans | pkg/providers/image/provider.go:354-366 | Versions count for an image given by its id exactly if it is in the compartment of the pre-baked images, and for a listing exactly if OKE images are asked for |
| ImageMeaning.ById | pkg/providers/image/provider.go:103-195 | An image given by its id is selected exactly if it supports the shape and, in the compartment of the pre-baked images, has a version that may run |
| ImageMeaning.OkeListing | pkg/providers/image/provider.go:140-195 | Of a listing of OKE images one that supports the shape and may run is selected: the latest version, then the newest, then the first listed; the shapes of any before it read |
| ImageMeaning.OtherListing | pkg/providers/image/provider.go:140-195 | Of any other listing the newest image that supports the shape is selected, whatever its version |
| ImageMeaning.ListingSelects | pkg/providers/image/provider.go:140-195 | A listing gives an image exactly if one of its images supports the shape and, for OKE images, has a version that may run |
| ImageCaching.CachedVersion | pkg/providers/image/provider.go:428-453 | From caches alone a kubelet version is found exactly if the chain of base images is cached and does not break, and then it is the same |
| ImageCaching.CachedFilterAndSort | pkg/providers/image/provider.go:343-413 | Cached-only filtering gives the full result exactly if everything it needs is cached and readable, and otherwise gives up |
| ImageCaching.CachedAnswerIsFull | pkg/providers/image/provider.go:145-195 | A cached-only answer is the answer of the full resolution, and everything that one reads is cached |
| ImageCaching.WarmAnswer | pkg/providers/image/provider.go:145-195 | From contents that hold all that a successful resolution reads, the cached-only one gives the same image, or none if a base image could not be read |
| ImageCaching.UnreadableBaseSilencesCache | pkg/providers/image/provider.go:374-402 | Two listed images, one tagged and one with an unreadable base: the full resolution selects the first, and from no contents does the cached-only one answer |
| ImageProvider.ImageProvider.ExtractKubeletVersion | pkg/providers/image/provider.go:428-453 | The version of the nearest tagged base image; the chain is cached afterwards, and a cached chain costs no load |
| ImageProvider.ImageProvider.Judge | pkg/providers/image/provider.go:369-402 | The candidates with their scores, or "not cached" as soon as a cached-only pass would have to read |
| ImageProvider.ImageProvider.FilterAndSortImages | pkg/providers/image/provider.go:343-413 | The two sorts with the version filter between them, and what it reads from the caches |
| ImageProvider.ImageProvider.ResolveImages | pkg/providers/image/provider.go:95-138 | By id or by filter, never both; what it read is cached, and what was cached costs no load |
| ImageProvider.ImageProvider.PickForShape | pkg/providers/image/provider.go:169-194 | The first image that supports the shape, reading shape sets only up to it |
| ImageProvider.ImageProvider.ResolveImageForShape | pkg/providers/image/provider.go:140-195 | If the caches alone would answer, gives their answer with no load and no change; after a success they answer the same, or nothing if a base image was unreadable |
| ImageProvider.ImageProvider.ResolveImageForShapeCached | pkg/providers/image/provider.go:145-160 | No load and no change, and an answer only if the full resolution gives it from the same state |
| Placement.AdFdSummary.Forget | pkg/providers/placement/ad_fd_summary.go:39-44 | Removes one instance |
| Placement.AdFdSummary.Update | pkg/providers/placement/ad_fd_summary.go:46-76 | Adds an instance unless its id is known |
| Placement.AdFdSummary.InstanceCountForAdFd | pkg/providers/placement/ad_fd_summary.go:123-137 | The number of instances at a site, whatever the map order |
| Placement.AdFdSummary.Propose | pkg/providers/placement/ad_fd_summary.go:78-94 | Reorders the proposals that are left, in place; the first of them is a least loaded one and is held under its temporary id |
| Placement.DecorationKeepsPlace | pkg/providers/placement/provider.go:202-258 | Decoration keeps place and claim, excludes combining reservation, cluster and group, and keeps a reservation proposal exactly if the labelled reservation has room there |
| ProposalMeaning.ProposalsMean | pkg/providers/placement/provider.go:101-130 | The proposals are, offering by offering and in order: one where nothing restricts it, one for the compute cluster in its domain, one for each placement group of its domain, or one for its reservation if that has room; each at the offering's domain, under the claim's name, and in the claim's fault domain or else a reserved offering's |
| ProposalMeaning.LabelMeans | pkg/providers/capacityreservation/resolve_result.go:198-209 | A label is what follows the last dot of the OCID, or the last 63 characters of that |
| ProposalMeaning.SiteProposedIff | pkg/providers/placement/provider.go:101-258 | There is a proposal for a site exactly if an offering there gives one |
| ProposalMeaning.NothingTriedIff | pkg/providers/placement/provider.go:132-161 | There is nothing to try, which ends in a panic, exactly if no offering gives a proposal |
| ProposalMeaning.CoversIff | pkg/providers/placement/provider.go:101-130 | The proposals cover a set of sites, as the balance results ask, exactly if each has an offering that gives one |
| ProposalMeaning.FirstTryAmongOfferings | pkg/providers/placement/provider.go:101-142 | The first try is at a least loaded site of all that have such an offering |
| Placement.ProposedLaunchExtendsRun | pkg/providers/placement/provider.go:206-231 | A launch proposed against a reservation, as it is reported after a run, extends the run; if the records are not mixed, each one the request matches stays within the bound of `Reservations.NeverOvercommitted` |
| Placement.PlacementProvider.InstanceFound | pkg/providers/placement/provider.go:62-64 | Adds an instance to the view of its NodePool and to no other |
| Placement.PlacementProvider.InstanceForget | pkg/providers/placement/provider.go:66-68 | Removes it from that view and from no other |
| Placement.PlacementProvider.TryAll | pkg/providers/placement/provider.go:137-161 | Tries are the start of a permutation of the proposals, each least loaded among those left, up to the first success; an error only after all; the claim leaves no trace |
| Placement.PlacementProvider.PlaceInstance | pkg/providers/placement/provider.go:82-162 | The same for the proposals made from the offerings (`ProposalMeaning.ProposalsMean`); other NodePools are untouched; without offerings an error, without proposals a panic |
| PlacementBalance.FirstTryIsLeastLoaded | pkg/providers/placement/ad_fd_summary.go:86-91 | What is tried first is a least loaded site of all that the proposals cover |
| PlacementBalance.PlacedFallsBack | pkg/providers/placement/provider.go:137-161 | A placement that succeeds goes to a least loaded site of those at which no attempt failed, and none that failed had more |
| PlacementBalance.PlacementsBalance | pkg/providers/placement/provider.go:137-161 | Over any run of outcomes of the retry loop and any sites at which no attempt failed, the spread of counts never exceeds what it was, or one; once they got as many as they fell short of their highest, it is at most one |
| PlacementBalance.BalancesIffNoneOrAllRefuse | pkg/providers/placement/provider.go:137-161 | If attempts fail by their site, the spread over all sites is bounded from every view and over every run if and only if no site or every site refuses |
| Balance.FallbackBalances | pkg/providers/placement/ad_fd_summary.go:86-89 | The bounds for sites without failures, on plain counts |
| Balance.RefusalUnbalances | pkg/providers/placement/provider.go:151-155 | Two sites of which one refuses twice end with none and two |
| Balance.SpreadNeverGrows | pkg/providers/placement/ad_fd_summary.go:86-89 | The same bound on plain counts |
| Balance.FillsUp | pkg/providers/placement/ad_fd_summary.go:86-89 | A run of exactly the missing number of placements brings every site up to the highest count |
| Balance.BalancedInTheEnd | pkg/providers/placement/ad_fd_summary.go:86-89 | From then on the counts differ by at most one |
| UsageLedger.Usage.Adjust | pkg/providers/capacityreservation/usage.go:38-62 | One cell changes by the difference, missing cells counting as zero, and the commit time is now |
| UsageLedger.SumSplit | pkg/providers/capacityreservation/resolve_result.go:118-121 | The sum over fault domains does not depend on the map order |
| UsageLedger.TextInjective | pkg/providers/capacityreservation/shape_key.go:31-37 | If rendering tells the sizes in use apart, rendered keys are equal exactly for equal shapes and sizes, although the shapes themselves are not compared |
| UsageLedger.SixDecimalsFaithful | pkg/providers/capacityreservation/shape_key.go:31-37 | Rendering to six decimals tells all numbers apart that have no more than six |
| UsageLedger.LedgerIsHistory | pkg/providers/capacityreservation/usage.go:30-62 | After any events each cell is increases minus decreases, also summed over all fault domains, and a key has a row exactly if an event mentioned it |
| Reservations.MatchesMeans | pkg/providers/capacityreservation/resolve_result.go:38-43 | A request matches all records of its shape if that has no configurable size, and otherwise those of the same shape and size |
| Reservations.AvailabilityForShape | pkg/providers/capacityreservation/resolve_result.go:30-66 | Matching records are merged by fault domain, each bucket with the sums of its records; the buckets together hold the total of all matching records |
| Reservations.HasMeans | pkg/providers/capacityreservation/resolve_result.go:30-66 | A bucket exists exactly if some matching record is in it, and what has no bucket sums to nothing |
| Reservations.AdmitsIsBucket | pkg/providers/placement/provider.go:219-226 | Looking up the bucket of a place and comparing its sums is comparing the sums of the matching records there |
| Reservations.AdjustShapeAvailability | pkg/providers/capacityreservation/resolve_result.go:105-128 | Used becomes the lesser of total and used plus what the row holds for the fault domain, or for all of them |
| Reservations.AdjustCapacityAgainstUsage | pkg/providers/capacityreservation/resolve_result.go:68-103 | Each record is adjusted by its own row, failing that by the row of the shape without a size, failing that not at all |
| Reservations.ReportedBucket | pkg/providers/capacityreservation/provider.go:84-96 | In a run, every record that matches a request counts exactly what was booked for that request |
| Reservations.AdmittedFits | pkg/providers/placement/provider.go:215-225 | What a launch is admitted to still has room for it, counted over the run so far, whether or not the records are mixed |
| Reservations.NeverOvercommitted | pkg/providers/capacityreservation/provider.go:84-113 | Between two resets, over any run of admitted launches and terminations with marks later than the snapshot, used plus net ledger usage stays within the total, for the bucket of every matching record, if they are not mixed |
| MixedReservations.BoundedIffUnmixed | pkg/providers/capacityreservation/resolve_result.go:105-128 | That bound holds of every matching record over every run if and only if these are all for the domain or all for fault domains |
| MixedReservations.LaunchesAloneOvercommit | pkg/providers/capacityreservation/resolve_result.go:114-124 | Two places for the domain and one in a fault domain: two launches for the domain are admitted and both land in that fault domain |
| MixedReservations.TotalNeverOvercommitted | pkg/providers/capacityreservation/provider.go:84-113 | Mixed or not, used plus net ledger usage stays within the total over all matching records together, over any run in which only instances end that were launched in it |
| MixedReservations.EarlierEndOvercommitsTotal | pkg/providers/capacityreservation/resolve_result.go:114-124 | An instance from before the snapshot ends in a fault domain; its place goes once to launches for the domain and once to one for the fault domain, and three are in use of two |
| Reservations.MarkSeenIff | pkg/providers/capacityreservation/provider.go:91-93 | A mark shows in a record exactly if it is later than the snapshot and its key and fault domain count there |
| Reservations.SecondLaunchAdmittedIff | pkg/providers/capacityreservation/provider.go:91-93 | With one place left, a second launch is admitted exactly if the first one's mark is not seen |
| ReservationProvider.ReservationProvider.MarkCapacityReservationUsed | pkg/providers/capacityreservation/provider.go:99-105 | One mark on the ledger of the instance's reservation, creating it if need be; other ledgers and caches stay |
| ReservationProvider.ReservationProvider.MarkCapacityReservationReleased | pkg/providers/capacityreservation/provider.go:107-113 | The same for a release |
| ReservationProvider.ReservationProvider.GetCapacityReservation | pkg/providers/capacityreservation/provider.go:185-212 | Every successful read, cached or not, drops the ledger; a failed one changes nothing |
| ReservationProvider.ReservationProvider.FilterCapacityReservations | pkg/providers/capacityreservation/provider.go:147-182 | A cached selector reads nothing; any other reads each reservation afresh, dropping its ledger |
| ReservationProvider.ReservationProvider.ResolveCapacityReservations | pkg/providers/capacityreservation/provider.go:55-97 | All named reservations in order (`ResolutionMeaning.CollectMeans`), each under the ledger it has at the end |
| ResolutionMeaning.GetAllMeans | pkg/providers/capacityreservation/provider.go:214-258 | Reading a list of ids succeeds exactly if each reads, and gives one reservation for each, in order |
| ResolutionMeaning.SelectMeans | pkg/providers/capacityreservation/provider.go:147-182 | A selector answers what is cached for it, or else all that is listed for it, which is then cached; a failure caches no answer |
| ResolutionMeaning.CollectMeans | pkg/providers/capacityreservation/provider.go:55-82 | A resolution succeeds exactly if each configuration is well-formed and all that it names reads, and gives the reservations of one configuration after the other |
| ResolutionMeaning.ResolutionReports | pkg/providers/capacityreservation/provider.go:84-97 | A resolved reservation is reported under the ledger it had before, or under none if the resolution reads it |
| ReservationProvider.SelectorHitKeepsLedgers | pkg/providers/capacityreservation/provider.go:147-182 | Resolving cached selectors changes nothing, ledgers included |
| ReservationProvider.CollectOnlyDrops | pkg/providers/capacityreservation/provider.go:203-209 | A resolution never creates a ledger and changes none except by dropping it |
| ReservationProvider.ByIdSeesNoLedger | pkg/providers/capacityreservation/provider.go:66-72 | A reservation configured by id has no ledger by the time it would be adjusted, whatever was marked |
| ReservationProvider.LedgerDroppedIff | pkg/providers/capacityreservation/provider.go:55-97 | A successful resolution drops a ledger exactly if some configuration has the id, or has a selector that is not cached and lists it; any other ledger stays as it was |
| ReservationProvider.ByIdReportsAgain | pkg/providers/capacityreservation/provider.go:66-72 | A cached reservation configured by id is reported the same before and after any mark |
| ReservationProvider.ByIdOvercommits | pkg/providers/capacityreservation/provider.go:203-209 | Two launches are admitted to a reservation of one, when it is configured by id |
| ReservationProvider.MarksAreLedgers | pkg/providers/capacityreservation/provider.go:99-126 | After any marks, the ledger of a reservation that had none is that of its own instances |
| ReservationProvider.ProviderReportsRun | pkg/providers/capacityreservation/provider.go:55-113 | Any successful resolution reports a reservation that it does not read afresh by its snapshot and all marks since, which is what the run invariant admits by |
| ReservationProvider.SelectorsReportRun | pkg/providers/capacityreservation/provider.go:55-113 | In particular, while all selectors stay cached |
| PriceOrder.GroupByPrice | pkg/cloudprovider/cloud_provider.go:375-377 | Groups offerings by price, in order |
| PriceOrder.OrderInstanceTypesByPrice | pkg/cloudprovider/cloud_provider.go:368-407 | One entry for each price of each type, ordered by price, then name, then position in the input |
| PriceOrder.OrderedOnce | pkg/cloudprovider/cloud_provider.go:379-404 | There is only one such order, so it does not depend on how the map of prices was walked |
| PriceOrder.KeptInOrder | pkg/cloudprovider/cloud_provider.go:373-377 | What a type keeps for a price is exactly its available and compatible offerings of that price, in order |
| PriceOrder.OrderedMeans | pkg/cloudprovider/cloud_provider.go:368-407 | One entry for exactly each price at which a type has an available and compatible offering, with just these, in order of price, name and position |
| PriceOrder.NothingOrderedIff | pkg/cloudprovider/cloud_provider.go:368-407 | There is no entry exactly if no type has an available and compatible offering |
| PriceOrder.StrLeMeans | pkg/cloudprovider/cloud_provider.go:399-403 | Names are in order where they first differ, and a name comes before its continuations |
| PriceOrder.NothingLost | pkg/cloudprovider/cloud_provider.go:371-384 | Each available and compatible offering stands in the one entry of its price as often as in its type, and any other in none |
| PriceOrder.EntryPrice | pkg/cloudprovider/cloud_provider.go:388-397 | Every entry has a single price, which is what the sort compares |
| Launching.TryEntries | pkg/cloudprovider/cloud_provider.go:188-233 | Each entry is handled by the retry loop from the view of its NodePool, up to the first that is not skipped; only the claim's own name may leave the view |
| Launching.SkippedIffLastSkippable | pkg/cloudprovider/cloud_provider.go:212-222 | An entry is skipped exactly if every proposal failed and the last of them in a way that may be skipped |
| Launching.EarlierErrorForgotten | pkg/cloudprovider/cloud_provider.go:212-222 | Two proposals, the first failing in a way that may not be skipped: the entry is skipped for the second's error |
| Launching.FatesLeaveOne | pkg/cloudprovider/cloud_provider.go:198-229 | Over all proposals of all entries, one attempt left an instance if the last entry launched, and otherwise none |
| Launching.LaunchFirst | pkg/cloudprovider/cloud_provider.go:188-252 | What became of the entries decides each ending exactly: a node from the first entry that launches, insufficient capacity if all were skipped and one was tried, an error that may not be skipped at once; one successful attempt for a node and otherwise none |
| Launching.Create | pkg/cloudprovider/cloud_provider.go:158-254 | The same over entries in price order; every entry of a lower price was handled before and skipped; the instance is then in the view of its NodePool, and nothing else changed |
| LaunchMeaning.CheaperOfferingsSkipped | pkg/cloudprovider/cloud_provider.go:158-233 | A node is launched for offerings of one price; for every cheaper available and compatible offering of any type, the type's entry of that price was handled before and skipped |
| LaunchMeaning.ExhaustedTriesAll | pkg/cloudprovider/cloud_provider.go:188-252 | Capacity is insufficient only after an attempt failed at the site of every available and compatible offering that can be proposed and whose shape has an image |
| LaunchMeaning.NothingUsable | pkg/cloudprovider/cloud_provider.go:164-167 | Nothing is tried exactly if no type has an available and compatible offering, and then capacity is insufficient |
| LaunchErrors.SkippableMeans | pkg/providers/instance/error.go:19-40 | Exactly which failures may be skipped: no capacity, by type or message, always; exceeded limits and quotas only with the fallback |
| LaunchErrors.ContainsMeans | pkg/oci/errors.go:121-132 | The message test is whether the text stands anywhere in it |
| OfferingMarks.KeyInjective | pkg/cache/unavailableofferings.go:102-115 | If rendering tells the sizes in use apart, colon-joined keys of colon-free parts are equal only for equal parts |
| OfferingMarks.DecimalRenders | pkg/cache/unavailableofferings.go:110-115 | Decimal text tells all numbers apart that have at most six decimals, and has no colon |
| OfferingMarks.UnavailableOfferings.MarkUnavailable | pkg/cache/unavailableofferings.go:62-77 | Adds a mark, or renews it; nothing if the feature is off |
| OfferingMarks.UnavailableOfferings.IsUnavailable | pkg/cache/unavailableofferings.go:82-89 | Exactly whether an unexpired mark for just this shape, size, zone, capacity type and compartment exists |
| OfferingMarks.UnavailableOfferings.Flush | pkg/cache/unavailableofferings.go:91-96 | Drops all marks |
| OfferingMarks.MarkUnavailableOffering | pkg/providers/instance/provider.go:325-365 | Marks exactly failures that may be skipped and were not proposed for a narrower place; a quota failure for its compartment, any other for the tenancy |
| OfferingMarks.SuppressOfferings | pkg/providers/instancetype/provider.go:903-918 | An offering becomes unavailable exactly if it is not reserved and a mark holds for the tenancy or for the compartment |
| OfferingMarks.HeldBackIff | pkg/providers/instance/provider.go:325-365 | An offering is held back exactly if a recent notable failure has its shape, size, zone and capacity type, and its compartment if it was a quota |
| OfferingMarks.StaysAvailableIff | pkg/providers/instancetype/provider.go:903-918 | An available offering stays so exactly if it is reserved, or no recent failure of its shape, size, zone, capacity type and, for a quota, compartment may be skipped and was not proposed for a narrower place |
| MemoryModel.ReservedIsLeastOfLines | pkg/providers/instancetype/provider.go:686-697 | The five branches of reserved memory are the least of their five lines |
| MemoryModel.ReservedGrowsSlowly | pkg/providers/instancetype/provider.go:686-697 | Reserved memory grows by at least a fiftieth and at most a quarter of the size |
| MemoryModel.PercentOnlyLowers | pkg/providers/instancetype/vm_memory_overhead.go:60-77 | A higher percentage never raises the estimate |
| MemoryModel.NeverOverDeclared | pkg/providers/instancetype/vm_memory_overhead.go:90-110 | The estimate exceeds the declared size exactly for a VM that declares less than one MiB |
| MemoryModel.WholeCapacity | pkg/providers/instancetype/vm_memory_overhead.go:21-25 | With the default overhead a VM of whole GiB has 1005 MiB for each, less 600; a bare metal machine all it declares |
| MemoryModel.AllocatablePositive | pkg/providers/instancetype/provider.go:637-709 | With the default overhead and no overrides, every real size of at least one GiB leaves memory for pods |
| MemoryModel.AllocatableIncreases | pkg/providers/instancetype/provider.go:637-709 | One more whole GiB always leaves more |
| MemoryModel.WholeReserved | pkg/providers/instancetype/provider.go:686-701 | What the kubelet reserves of whole GiB, in bytes, in closed form |
| MemoryModel.WholeAllocatable | pkg/providers/instancetype/provider.go:637-709 | What whole GiB leave for pods under the default overhead, in bytes, in closed form |
| MemoryModel.WholePercent | pkg/providers/instancetype/vm_memory_overhead.go:60-77 | Where the percentage form is the larger, it takes that share of the declared MiB, rounded up |
| CapacityDiscovery.NodeCapacity.Get | pkg/providers/capacitydiscovery/discoveredcapacity.go:62-70 | The unexpired value, unless the feature is off |
| CapacityDiscovery.NodeCapacity.Record | pkg/providers/capacitydiscovery/discoveredcapacity.go:82-102 | A larger value changes nothing; a smaller or equal one replaces the entry and starts its time anew |
| CapacityDiscovery.SmallestWins | pkg/providers/capacitydiscovery/discoveredcapacity.go:72-102 | However callers interleave and time passes, a live entry is the minimum of the observations completed since the key was last absent |
| CapacityDiscovery.NeverRisesWhileLive | pkg/providers/capacitydiscovery/discoveredcapacity.go:72-102 | The value rises only after it was absent |
| CapacityDiscovery.RaceWithoutMutex | pkg/providers/capacitydiscovery/discoveredcapacity.go:32-35 | Without the mutex two callers can leave the larger value |
| CapacityDiscovery.AloneIsRecord | pkg/providers/capacitydiscovery/discoveredcapacity.go:82-102 | A caller that is alone in the step machine does what `Record` does |

## Left out

- SingleFlight.LoadsOnce: assumes that no load failed so far, since the property is false after a failure (see `SingleFlight.OneFailureAllowsTwoLoads`); what holds with failures is `SingleFlight.LoadsBoundedByFailures`.
- DriftMeaning.NoDriftMeans: assumes that a fetched VNIC carries the id it was fetched under and, for the way back, that each subnet's desired VNICs are listed most selective first, which `VnicMatching.GreedyCompleteIff` shows to be needed.
- DriftDetection.NoDriftIsMatched: assumes that a fetched VNIC carries the id it was fetched under; `VnicMatching.MisfiledVnicServesTwice` shows that this is needed.
- ImageMeaning.ListingSelects: supposes that shape sets read and that no base image is missing from the caches; what happens otherwise is said of the cached resolution by `ImageCaching.CachedFilterAndSort`.
- ImageSelection.SelectedIsBest: assumes that base images form no cycle, on which the source would not end, and that an id names one image.
- ImageProvider.ImageProvider.ResolveImageForShape: assumes one image type per filter, because the cache key of a listing is the filter alone, and that the API does not return the provider's private "not cached" error.
- Reservations.NeverOvercommitted: states the bound for all records of one fault domain together, since launches are admitted against their sum; it is false of records that are mixed (`MixedReservations.BoundedIffUnmixed`), and it assumes that marks carry the size exactly for sizable shapes.
- PlacementBalance.PlacementsBalance: supposes that a claim's name is not the id of a known instance, that no instance is at two of the sites, and that every site has a proposal in each placement.
- UsageLedger.TextInjective: supposes sizes that rendering tells apart, as six decimals do for all numbers with at most six; two sizes that differ only further on have the same key.
- OfferingMarks.KeyInjective: the source renders the shortest text that gives a float32 back, which is not modelled; any rendering that tells the sizes in use apart will do, and `OfferingMarks.DecimalRenders` is one.
- MixedReservations.BoundedIffUnmixed: supposes that a fault domain that is given has a name, and that no record is reported with more used than its total.
- MixedReservations.TotalNeverOvercommitted: supposes that only instances launched in the run end in it; otherwise it is false (`MixedReservations.EarlierEndOvercommitsTotal`).
- Launching.Create: takes one answer per launch attempt; the steps of a launch and its work request are not part of this model, nor is the mark on the reservation ledger after it, which `Placement.ProposedLaunchExtendsRun` covers.
- OfferingMarks.HeldBackIff: assumes compartments with a name; a quota failure in a compartment without one would count for the whole tenancy.
- MemoryModel.WholeAllocatable: is for overheads below the largest 64-bit integer, beyond which the source clamps.
- MemoryModel.AllocatablePositive: uses reals, so the rounding of float32 and float64 is not part of this model, nor is the fallback for values that are not numbers.
- Concurrency outside `SingleFlight` and `CapacityDiscovery`: operations happen one at a time, so loads in flight that repopulate an evicted entry are not modelled.
- The reservations that a failing resolution returns beside its error, and the times at which two loads of one resolution happen.
- Checks of an instance's own fields, launch options and static fields in drift detection: `DriftFlow` takes them as one function.
- What comes before the launch loop in `Create` (node class, instance types, network, encryption key) and after the instance is known to placement (network object, annotations), and the making of offerings.
- Kubelet overrides, eviction thresholds, reserved CPU and pod counts.
- The requirement algebra of the Karpenter core: compatibility is an arbitrary predicate.
- Clients, retries, work requests, metrics, logging, option parsing, reconcilers and string building for cloud-init.
