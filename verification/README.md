# azure-admission-controller: a verified model

This project models the admission webhooks of the Azure admission controller and proves properties of
them: which release changes they let through and what that means for whole upgrade histories, what every
stored node pool satisfies, and what the patches do that the mutating webhooks emit.
`dafny verify dfyconfig.toml` checks all of it.

## Modules

| module | what it models |
|---|---|
| `Semver` | release versions with the precedence of section 11 of Semantic Versioning 2.0.0, release lines, the alpha test on the printed version |
| `ReleaseVersion`, `ReleaseRuns` | the release rules over the catalogue of Release objects; chains of release changes |
| `Conditions`, `Clusters`, `Upgrades` | Cluster and AzureCluster updates as a protocol of two objects whose writes interleave |
| `CatchingUp` | when an AzureCluster can follow its Cluster, and when it never can again |
| `Skus`, `SkuConcurrency` | the VM size cache, as a class and as interleaved steps of concurrent requests |
| `NodePools` | creation and update checks of node pools |
| `JsonPointer`, `JsonPatch` | RFC 6901 pointers, and RFC 6902 patches over trees of objects |
| `Patches` | the stable sort of patches by path and the filter by path prefix |
| `Autoscaling`, `Labels`, `FieldPatches`, `ClusterMutation`, `PoolMutation` | the mutating webhooks and the checks their output has to pass |
| `Normalize` | normalisation of organization names to DNS labels |
| `StatusErrors` | dropping the causes of an upstream validation error |
| `Zones` | the update check of MachinePools, and the checks that availability zones do not change |
| `Wrappers`, `Orders`, `Sorting`, `Text`, `StringMaps`, `JsonDecoding` | results, lexicographic orders, filtering and stable sorting, decimal numbers, label maps, decoding of JSON members |

Code outside the repository enters as a value. `ReleaseCR.parsed` and the `release` fields are what the
version parser makes of a name or label. `Externals`, `libraryAllows` and `organizationMatches` are
verdicts of upstream validation, of the upgrade schedule and of the organization lookup. `OwnerLookup`,
`Reply` and `reachable` are replies of the Kubernetes and Azure clients, which may fail. `UnicodeTables`
stands for Go's tables of lower-case forms and decimal digits, and every result holds for all tables that
treat ASCII as Unicode does. The names of the autoscaler annotations and of the labels come from another
library, so the results hold for all names (for two different annotations, and for two different version
labels). `diff` is the JSON diff between an object before and after the upstream defaulting.

## Where the code differs from its documentation

- `docs/validating.md` says that `spec.clusterNetwork` is checked to be unchanged. The check ignores the
  pod ranges; `Clusters.NetworkUnchangedExactly` says exactly when a change passes.
- A cluster network without an API server port makes the network checks dereference a nil pointer.
  That outcome is `Panicked`, and `Clusters.NetworkUnchangedExactly` and `Clusters.ValidNetworkExactly`
  say when it happens; `Clusters.MissingPortPanics` has a network.
- `docs/validating.md` gives the service domain as a name below the base domain. The code compares it with
  "cluster.local".
- The comment on `AsDNSLabelName` promises a DNS label. The cut to 63 characters may leave a dash at the
  end, and digits from outside ASCII stay; `Normalize.IsLabelExactly` gives the condition.
- The autoscaler annotations cannot be repaired when the number of replicas is negative and the minimum
  is invalid; `Autoscaling.RepairSucceedsExactly` says so in both directions, and
  `Autoscaling.RepairMayFail` has an input.
- `IgnoreCAPIErrorForField` panics when causes survive and the message does not match its pattern
  (`StatusErrors.PanicsExactly`, and for an input `StatusErrors.PanicIsPossible`). The checks chain such
  calls, each on the message that the one before rebuilt, so a chain may panic although the first message
  matches: when the causes left so far put a line break before the first closing bracket and a further
  call still has causes to report. `StatusErrors.IgnoreAllExactly` says exactly which chains do. The order
  of the ignored fields decides it then; `StatusErrors.FieldOrderMayMatter` has a message on which one
  order panics and the other does not.
- The VM size cache lists a location once in sequential use. Concurrent requests may list it again, though
  only those that looked for it before it was cached (`SkuConcurrency.RelistingExactly`).
- `docs/mutating.md` says that the version labels come from the Cluster. The code reads the AzureCluster.
- An update that changes the VM size is refused when premium storage would be lost, although the error
  speaks of accelerated networking.
- Two accepted upgrades in a row need not be acceptable as one (`ReleaseRuns.StepsComposeExactly`, with
  the releases 1.0.0, 1.1.0 and 1.2.0 in `ReleaseRuns.StepsNeedNotCompose`). A Cluster may therefore move
  on before its AzureCluster has followed and leave it behind: `CatchingUp.AzureMayBeLeftBehind` builds
  such histories, `CatchingUp.CatchingUpExactly` says in which the AzureCluster can still follow, and by
  `CatchingUp.LeftBehindForever` it never can again once a line lies between them, as long as the
  catalogue stays; deprecating or ignoring the skipped release frees it (`ReleaseRuns.MarkingFrees`). Only the
  Upgrading condition, which another controller sets, makes the Cluster wait.
- A node pool without a managed disk object, or a Cluster without an endpoint object, gets patches that
  cannot be applied; `PoolMutation.MutationAppliesExactly` and `ClusterMutation.MutationAppliesExactly`
  say when the output of the webhooks applies, and `PatchesMayNotApply` in both modules has such objects.

## Model

| member | source | states |
|---|---|---|
| ReleaseVersion.Validate | internal/releaseversion/releaseversion.go:19-69 | the loops, guards and early returns compute `Decide`, with the right error and, for a skip, the first skipped release of the catalogue; in `Decide` the release-line guard and the `continue` are gone |
| ReleaseVersion.AvailableReleases | internal/releaseversion/releaseversion.go:71-95 | all entries parsed in order, or the failure of the list request, or the first name that does not parse |
| ReleaseVersion.FilterOutAlphaAndIgnoredAndDeprecated | internal/releaseversion/releaseversion.go:97-117 | keeps exactly the active entries, in order |
| ReleaseVersion.IsOldOrNewReleaseIgnored | internal/releaseversion/releaseversion.go:119-129 | true iff some ignored entry equals either version by precedence |
| ReleaseVersion.Included | internal/releaseversion/releaseversion.go:131-139 | true iff some entry equals the version by precedence |
| ReleaseVersion.FindSkipped | internal/releaseversion/releaseversion.go:54-65 | the first active release strictly between the versions on a line of its own, if there is one |
| ReleaseVersion.GuardsAreRedundant | internal/releaseversion/releaseversion.go:52-57 | no release is skipped between versions of one line, and neither end point is ever skipped |
| ReleaseRuns.VerdictExactly | internal/releaseversion/releaseversion.go:19-69 | a change is accepted iff one quantified formula over the catalogue holds |
| ReleaseRuns.VerdictInWords | internal/releaseversion/releaseversion.go:19-69 | the same with the annotation, its value, the state and the word "alpha" written out: an entry stands in the way iff it is neither marked nor deprecated nor alpha and lies between the versions on a line of its own |
| ReleaseRuns.RefusalIsJustified | internal/releaseversion/releaseversion.go:24-68 | every refusal names what is wrong, with the first entry that does not parse or that is jumped over |
| ReleaseRuns.ListFailureExactly | internal/releaseversion/releaseversion.go:19-27 | without a list every change is an error, and no change is none |
| ReleaseRuns.OrderIsIrrelevant | internal/releaseversion/releaseversion.go:35-66 | every permutation of the catalogue gives the same verdict |
| ReleaseRuns.MarkingIsMonotone | internal/releaseversion/releaseversion.go:97-129 | deprecating or ignoring any entry never turns an accepted change into a rejected one |
| ReleaseRuns.MarkingFrees | internal/releaseversion/releaseversion.go:97-117 | deprecating or ignoring the only release that is jumped over makes the change legal |
| ReleaseRuns.IgnoredDoesNotBlock | internal/releaseversion/releaseversion.go:105-107 | 1.0.0 may become 1.2.0 when 1.1.0 is marked with the annotation |
| ReleaseRuns.Interpolation | internal/releaseversion/releaseversion.go:49-66 | an accepted upgrade between releases that are not ignored can be interrupted at every listed non-alpha release on the way |
| ReleaseRuns.StepsComposeExactly | internal/releaseversion/releaseversion.go:49-66 | two accepted upgrades in a row are accepted as one iff the pair skips no line |
| ReleaseRuns.ThreeLinesDoNotCompose | internal/releaseversion/releaseversion.go:49-66 | with any three active releases on lines of their own both single steps are accepted and the double step is not |
| ReleaseRuns.StepsNeedNotCompose | internal/releaseversion/releaseversion.go:49-66 | 1.0.0 may become 1.1.0, and that 1.2.0, but 1.0.0 may not become 1.2.0 |
| ReleaseRuns.RunsNeverGoDown | internal/releaseversion/releaseversion.go:39-42 | a run of accepted changes without ignored versions is non-decreasing |
| ReleaseRuns.NoLineIsSkipped | internal/releaseversion/releaseversion.go:39-66 | such a run visits the line of every active release strictly between its ends |
| ReleaseRuns.Reachable | internal/releaseversion/releaseversion.go:29-68 | from a non-alpha version every newer active release is reached by accepted changes, in at most as many steps as there are active releases on the way |
| ReleaseRuns.IgnoredLiftsTheRules | internal/releaseversion/releaseversion.go:34-37 | with an ignored release at either end every change to a listed release is accepted, downgrades included |
| Semver.PrecedenceIsTotalPreorder | internal/releaseversion/releaseversion.go:20-59 | the comparisons used by the rules form a total preorder with its strict part and its equivalence |
| Semver.SameExactly | internal/releaseversion/releaseversion.go:20 | two versions are equal by precedence iff they differ in build metadata only |
| Semver.NumbersDecide | internal/releaseversion/releaseversion.go:40-59 | rules 11.2 and 11.3 of Semantic Versioning: numbers decide from major to patch, a pre-release comes before its release |
| Semver.PreReleasesDecide | internal/releaseversion/releaseversion.go:40-59 | rule 11.4 of Semantic Versioning: the first different identifier decides, numbers below words, shorter lists first |
| Semver.WordsDecide | internal/releaseversion/releaseversion.go:40-59 | identifiers that are words compare by their first different character, the smaller one first |
| Semver.LinesAreMonotone | internal/releaseversion/releaseversion.go:58-61 | release lines follow precedence |
| Semver.AlphaExactly | internal/releaseversion/releaseversion.go:141-143 | searching the printed version finds exactly the pre-release and build identifiers that contain "alpha" |
| Semver.VersionTextExactly | internal/releaseversion/releaseversion.go:45 | how a version is printed, with its dots, its dash and its plus |
| Semver.AlphaDespiteSamePrecedence | internal/releaseversion/releaseversion.go:44-47 | versions equal by precedence can differ in being alpha only through build metadata |
| Conditions.ValidateAll | internal/conditions/validate.go:13-24 | the error of the first objecting rule, none iff no rule objects |
| Conditions.ValidateCreatingCondition | internal/conditions/validate_cluster.go:29-59 | the rule objections, then the refusal to go from False back to True |
| Conditions.ValidateUpgradingCondition | internal/conditions/validate_cluster.go:61-79 | the rule objections for the Upgrading condition |
| Conditions.ValidateClusterConditions | internal/conditions/validate_cluster.go:13-27 | the Creating objection, else the Upgrading objection |
| Conditions.ChangeRulesExactly | internal/conditions/validate.go:26-70 | the three rules pass iff the new status is True, False or absent, and not absent when it was set |
| Conditions.ConditionsExactly | internal/conditions/validate_cluster.go:13-79 | the two checks accept iff both changes are proper and a completed creation stays completed |
| Conditions.GetExactly | internal/conditions/validate_cluster.go:30-31 | the condition looked at is the first one of the kind, and there is none iff no condition has the kind |
| Conditions.StatusExactly | internal/conditions/validate_cluster.go:49-50 | a condition is True or False iff it is set to that word |
| Conditions.ObjectionIsJustified | internal/conditions/validate.go:26-70 | every objection names what is wrong with the change of the Creating or the Upgrading condition |
| Clusters.NetworkUnchangedExactly | pkg/cluster/validate_update.go:74-109 | admits iff the networks agree outside the pod ranges and both have a port; panics iff both are set and a port is missing |
| Clusters.PodRangesMayChange | pkg/cluster/validate_update.go:74-109 | a concrete network change that is admitted |
| Clusters.ValidNetworkExactly | pkg/cluster/control_plane_endpoint.go:12-34 | admits iff the network is the default one outside the pod ranges; panics iff it has no port |
| Clusters.NetworkRefusalIsJustified | pkg/cluster/control_plane_endpoint.go:12-34 | every refusal of a new network names the field that is wrong |
| Clusters.MissingPortPanics | pkg/cluster/validate_update.go:74-109 | a network without a port on which both checks panic |
| Upgrades.ClusterUpdateExactly | pkg/cluster/validate_update.go:21-131 | a Cluster update is admitted iff it deletes or one conjunction of all checks holds, with Creating and Upgrading blocking release changes |
| Upgrades.AzureClusterUpdateExactly | pkg/azurecluster/validate_update.go:17-82 | an AzureCluster update is admitted iff it deletes or one conjunction of all checks holds, a new release being the owner's |
| Upgrades.ClusterRefusalIsJustified | pkg/cluster/validate_update.go:21-131 | every refusal of a Cluster update names what is wrong with it, and a panic is over a missing port |
| Upgrades.AzureClusterRefusalIsJustified | pkg/azurecluster/validate_update.go:17-82 | the same for an AzureCluster, where a panic is over a missing owner |
| Upgrades.FixedFieldsStay | pkg/generic/validate_organization_label.go:17-31 | in every interleaving both objects keep organization and endpoint, and the Cluster its network but for the pod ranges |
| Upgrades.AzureFollowsCluster | pkg/azurecluster/validate_update.go:65-79 | in every interleaving of admitted writes that starts with equal releases, the AzureCluster has a release the Cluster has or has had |
| Upgrades.AzureNeverAhead | pkg/azurecluster/validate_update.go:65-81 | as long as the Cluster has no ignored release, the AzureCluster never exceeds it |
| Upgrades.FailedLookupKeepsRelease | pkg/azurecluster/validate_update.go:65-69 | while the owner cannot be looked up the AzureCluster keeps its release |
| Upgrades.TracesAreRuns | pkg/cluster/validate_update.go:121-130 | in every interleaving both objects go through runs of accepted changes |
| Upgrades.NoObjectSkipsALine | pkg/cluster/validate_update.go:130 | so neither object jumps over a release line |
| CatchingUp.CatchingUpExactly | pkg/azurecluster/validate_update.go:65-81 | in every interleaving without ignored releases the AzureCluster can take over the Cluster's release iff it has it already, or neither is alpha and no active release lies between them on a line of its own |
| CatchingUp.LeftBehindForever | pkg/azurecluster/validate_update.go:65-81 | once such a release lies between them, no later write changes the AzureCluster's release, and the Cluster's stays out of its reach |
| CatchingUp.AzureMayBeLeftBehind | pkg/cluster/validate_update.go:111-131 | with any three active releases on lines of their own, two admitted Cluster writes leave the AzureCluster behind |
| CatchingUp.LeavingBehindExample | pkg/cluster/validate_update.go:111-131 | an admitted interleaving over 0.0.0, 1.0.0 and 2.0.0 that does |
| CatchingUp.InStepNeverLeftBehind | pkg/cluster/validate_update.go:111-131 | a Cluster that moves only when its AzureCluster has caught up does not leave it behind, unless that has an alpha release |
| CatchingUp.BehindAListedRelease | pkg/azurecluster/validate_update.go:65-81 | an AzureCluster that differs from its Cluster is below it, and the Cluster's release is in the catalogue |
| CatchingUp.BothReach | pkg/azurecluster/validate_update.go:65-81 | from equal non-alpha releases an admitted interleaving brings both objects to any newer active release, by at most two writes for each active release on the way |
| Upgrades.ConditionsPersist | internal/conditions/validate_cluster.go:29-79 | over every interleaving a set condition is never removed and Creating never leaves False |
| Upgrades.CreationIsAnInterval | internal/conditions/validate_cluster.go:49-56 | a Cluster that is being created at two moments is being created at all moments between |
| Upgrades.CreationFreezesRelease | pkg/cluster/validate_update.go:121-128 | a Cluster that is being created keeps its release, up to and including the write that ends the creation |
| Skus.VMSKU.GetSKU | internal/vmcapabilities/vmsku.go:138-158 | the answer is a lookup in the cache after it, a success is a direct lookup, the cache is filled only for a missing location, and no location is listed twice |
| Skus.VMSKU.InitCache | internal/vmcapabilities/vmsku.go:160-175 | a successful list fills one location; a failed one leaves the cache as it was |
| Skus.VMSKU.GetCapability | internal/vmcapabilities/vmsku.go:119-136 | the search loop finds the first capability of the name |
| Skus.VMSKU.HasCapability | internal/vmcapabilities/vmsku.go:73-83 | a successful answer is the one of the full catalogue |
| Skus.VMSKU.CPUs | internal/vmcapabilities/vmsku.go:55-71 | a successful answer is the number in the full catalogue |
| Skus.VMSKU.Memory | internal/vmcapabilities/vmsku.go:85-101 | a successful answer is the number in the full catalogue |
| Skus.FirstNameCounts | internal/vmcapabilities/vmsku.go:127-133 | among capabilities of one name the first counts, even without a value |
| Skus.CapabilityDecides | internal/vmcapabilities/vmsku.go:55-136 | a listed VM size supports something iff the first capability of the name spells "true" in any mix of cases, and has a number iff that value is an integer of 64 bits |
| Skus.MissingCapability | internal/vmcapabilities/vmsku.go:67-135 | without such a capability it does not support it, and asking for the number is an error |
| Skus.LookupFailsExactly | internal/vmcapabilities/vmsku.go:138-158 | a lookup fails iff an argument is empty or location or VM size are not listed, each with its own error |
| Skus.SupportExamples | internal/vmcapabilities/vmsku.go:15-17 | "True" and "TRUE" are supported; "False", an empty and a missing value are not |
| Text.TrueExactly | internal/vmcapabilities/vmsku.go:78 | comparing with "true" without regard to case accepts exactly the spellings whose letters are those of the word in either case |
| Skus.AnswersAreStable | internal/vmcapabilities/vmsku.go:138-158 | successful answers do not depend on how much of the catalogue is cached |
| Skus.FillingExactly | internal/vmcapabilities/vmsku.go:146-171 | a request adds just its own location to the cache, iff it is missing and can be listed, and asking again adds nothing |
| SkuConcurrency.CacheAgreesWithAzure | internal/vmcapabilities/vmsku.go:138-175 | under every interleaving a finished request has the answer of a direct lookup for the arguments it started with, or failed because its own listing failed |
| SkuConcurrency.FilledLocationsNeverChange | internal/vmcapabilities/vmsku.go:146-171 | under every interleaving a cached location stays cached with the same contents |
| SkuConcurrency.FailedRequestLeavesNoTrace | internal/vmcapabilities/vmsku.go:146-175 | a request that fails to list has, in no step of any interleaving, changed the cache or another request, and does not keep the lock |
| SkuConcurrency.CacheComesFromListings | internal/vmcapabilities/vmsku.go:160-175 | every cached location was cached at the start or listed successfully; without a successful listing the cache stays as it was |
| SkuConcurrency.FillsExcludeEachOther | internal/vmcapabilities/vmsku.go:161-162 | at most one request is inside the locked fill |
| SkuConcurrency.SomeThreadCanMove | internal/vmcapabilities/vmsku.go:146-175 | no deadlock: while a request is unfinished some request can move |
| SkuConcurrency.ConcurrentRequestsMayListTwice | internal/vmcapabilities/vmsku.go:146-171 | an interleaving in which one location is listed twice |
| SkuConcurrency.RelistingExactly | internal/vmcapabilities/vmsku.go:146-171 | some continuation lists a cached location again iff a request for it waits for the lock or is listing |
| SkuConcurrency.NoMoreListings | internal/vmcapabilities/vmsku.go:146-171 | without such a request no continuation lists it again, nor makes such a request |
| NodePools.CreateEstablishes | pkg/azuremachinepool/validate_create.go:12-59 | an accepted creation establishes the pool invariant, whatever part of the catalogue was at hand |
| NodePools.CreateExactly | pkg/azuremachinepool/validate_create.go:12-59 | with the whole catalogue, creation accepts iff the invariant and the external checks hold |
| NodePools.UpdatePreserves | pkg/azuremachinepool/validate_update.go:14-158 | an accepted update keeps the invariant although it never repeats the storage check, and keeps the fixed fields |
| NodePools.UpdateExactly | pkg/azuremachinepool/validate_update.go:14-158 | a stored pool may change exactly in its VM size, to one that keeps the invariant and does not give up premium storage |
| NodePools.UpdateInWords | pkg/azuremachinepool/validate_update.go:14-158 | for every stored pool and every part of the catalogue: deleted and handed-over pools pass, and otherwise one conjunction decides, with all names and limits written out |
| NodePools.CreateRefusalIsJustified | pkg/azuremachinepool/validate_create.go:12-59 | every refusal of a creation names what is wrong with the pool |
| NodePools.UpdateRefusalIsJustified | pkg/azuremachinepool/validate_update.go:14-158 | every refusal of an update names what is wrong with it |
| NodePools.HandedOverExactly | pkg/generic/capi.go:13-36 | an update is handed over unseen iff the release parses and is 20.0.0-v1alpha3 or later; a label that does not parse is an error |
| NodePools.PoolsStaySound | pkg/azuremachinepool/validate_update.go:90-158 | over every creation followed by updates: premium disk implies premium-capable size, accelerated networking implies support, memory at least 16, CPUs at least 4 |
| JsonPointer.UnescapeEscape | pkg/mutator/ensure_release_label.go:61-67 | unescaping by section 4 of RFC 6901 undoes the escaping for every string, and the output is a proper reference token |
| JsonPointer.EscapeUnescape | pkg/machinepool/autoscaling.go:14-20 | every proper reference token is the escaped form of what it unescapes to |
| JsonPointer.EscapeIsInjective | pkg/machinepool/autoscaling.go:14-20 | different names have different escaped forms |
| JsonPointer.EscapeInWords | pkg/mutator/ensure_release_label.go:61-67 | escaping works character by character: "~" becomes "~0", "/" becomes "~1", and nothing else changes |
| JsonPointer.MemberPointer | pkg/mutator/ensure_release_label.go:28 | two plain members and an escaped name tokenise to exactly three tokens ending in the name |
| JsonPointer.TokensOfPointer | pkg/mutator/ensure_release_label.go:61-67 | reading a pointer gives back the tokens it was built from |
| JsonPointer.PointerOfTokens | pkg/mutator/ensure_release_label.go:61-67 | a valid pointer is the only one with its tokens |
| JsonPatch.EditsApartCommute | pkg/mutator/patch.go:3-39 | operations at positions that lie apart commute, failures included |
| JsonPatch.AddSucceeds | pkg/mutator/patch.go:21-39 | an add succeeds iff its parent is an object, and puts the value there |
| JsonPatch.ReplaceSucceeds | pkg/mutator/patch.go:11-19 | a replacement succeeds iff the member exists, and then acts as an add |
| JsonPatch.RemoveSucceeds | internal/patches/patches.go:51-58 | a removal, as diffs contain them, succeeds iff the member exists, and takes it away |
| JsonPatch.OtherOperationsFail | pkg/mutator/patch.go:3-9 | operations of other names fail |
| JsonPatch.RootAndWrongPaths | pkg/mutator/patch.go:3-9 | at the root an add or a replacement takes the place of the document, and a path that is no pointer fails |
| JsonPatch.EditFrame | pkg/mutator/patch.go:3-39 | an operation leaves everything apart from its position as it was |
| Patches.GenerateFrom | internal/patches/patches.go:15-71 | the copied patches, stably sorted in place by path |
| Patches.SkipForPath | internal/patches/patches.go:73-84 | the operations whose path does not start with the prefix, in order |
| Patches.SortByPathIsStable | internal/patches/patches.go:33-35 | the result is the one list that is sorted by path and keeps the order of operations with equal paths |
| Patches.PathsAscend | internal/patches/patches.go:33-35 | the sorted operations come in ascending order of their paths |
| Orders.StringsByFirstDifference | internal/patches/patches.go:34 | strings compare by their first different character, the smaller one first, a proper prefix before the rest |
| Patches.SortingKeepsMeaning | internal/patches/patches.go:60-68 | applying the sorted list equals applying the original, failures included, when the operations that change their order lie apart |
| Patches.ApartPathsSuffice | internal/patches/patches.go:60-68 | which holds for every order of operations of which any two have the same path or lie apart |
| Patches.SortingMayChangeMeaning | internal/patches/patches.go:60-68 | a list for which it does not, when the condition is dropped |
| Patches.SkipCommutesWithSort | internal/patches/patches.go:33-84 | filtering commutes with the stable sort |
| Patches.SkipRemovesOneBlock | internal/patches/patches.go:73-84 | in the sorted list the filter removes exactly one contiguous block |
| Sorting.InsertionSort | internal/patches/patches.go:33-35 | sorting in place by swaps yields the stable sort of the old contents |
| Sorting.StableSortIsUnique | internal/patches/patches.go:33-35 | a sequence is the stable sort iff it is sorted and keeps every class of equivalent elements in order |
| Text.ParsePrint | pkg/machinepool/autoscaling.go:36-56 | parsing a printed number gives it back iff it is in the range of the parsed type |
| Text.NumberExamples | pkg/machinepool/autoscaling.go:36-56 | numbers are decimal with an optional sign, and other texts are no numbers |
| Text.BadCharacter | pkg/machinepool/autoscaling.go:43-46 | a character that is no digit, but for one sign in front, makes a text no number |
| Text.IntegerRanges | pkg/machinepool/autoscaling.go:43 | the limits of integers of 32 and of 64 bits |
| Autoscaling.EnsureAutoscalingAnnotations | pkg/machinepool/autoscaling.go:24-64 | the branches emit one add or replacement for each annotation that is missing or invalid |
| Autoscaling.RepairApplies | pkg/machinepool/autoscaling.go:24-64 | where an annotations object exists the patches apply, and it then decodes to exactly the repaired annotations |
| Autoscaling.RepairFrame | pkg/machinepool/autoscaling.go:36-59 | the patches leave the rest of the object as it was |
| Autoscaling.RepairSucceedsExactly | pkg/machinepool/autoscaling.go:24-64 | the result parses as int32 with 0 <= min <= max iff replicas are not negative or the minimum was valid |
| Autoscaling.SoundExactly | pkg/machinepool/autoscaling.go:43-58 | sound means: both present, integers of 32 bits, and 0 <= min <= max |
| Autoscaling.NewPoolExactly | pkg/machinepool/autoscaling.go:27-53 | a pool without annotations gets its number of replicas twice, or one twice when it names none |
| Autoscaling.EmittedExactly | pkg/machinepool/autoscaling.go:36-59 | missing or empty annotations are added and wrong ones replaced, the minimum first, at their escaped paths |
| Autoscaling.RepairMayFail | pkg/machinepool/autoscaling.go:24-64 | with -1 replicas and no annotations the repaired ones are unsound, and a second run emits patches again |
| Autoscaling.RepairIsIdempotent | pkg/machinepool/autoscaling.go:24-64 | a second run emits nothing, under the same condition |
| Autoscaling.ValidValuesStay | pkg/machinepool/autoscaling.go:45-60 | valid values and other annotations are left alone, and nothing is emitted iff all is sound |
| Autoscaling.RepairNeedsAnnotations | pkg/machinepool/autoscaling.go:34-53 | without an annotations object the emitted patches fail |
| Labels.EnsuredLabelIsSet | pkg/mutator/ensure_release_label.go:18-59 | the emitted patch sets the label to the AzureCluster's value, and a second run emits nothing |
| Labels.EnsureLabelExactly | pkg/mutator/ensure_release_label.go:18-59 | what is emitted, and which error when, in the terms of the labels of both objects |
| Labels.EnsureLabelNeedsLabels | pkg/mutator/component_version_label.go:15-30 | the emitted patch applies iff the object has a labels object |
| Labels.LabelFillSets | pkg/mutator/component_version_label.go:15-30 | a label patch that applies changes the labels of the object in just that label |
| JsonPatch.EditKeepsObjects | pkg/mutator/patch.go:3-39 | an operation keeps every object it does not lie above, and makes none |
| FieldPatches.FillsApplyExactly | pkg/mutator/patch.go:21-39 | a list of adds at separate fields applies iff every object exists to which a field has to be added |
| FieldPatches.FillsSet | pkg/mutator/patch.go:21-39 | and then each of the fields has its default, or its old value when it needed none |
| FieldPatches.FillsCommuteWithRest | pkg/cluster/mutate_create.go:23-63 | filling fields and then patching elsewhere equals patching first and then filling, failures included |
| FieldPatches.FillsAndRestApplyExactly | pkg/cluster/mutate_create.go:23-63 | both together apply iff each of them does |
| ClusterMutation.ClusterPlacesAreSeparate | pkg/cluster/mutate_create.go:69-102 | none of the places of a Cluster contains another: the patched ones, the name and the labels |
| ClusterMutation.ClusterPaths | pkg/cluster/mutate_create.go:82-98 | the pointers of those places are the paths that the webhook writes |
| ClusterMutation.OnCreateMutate | pkg/cluster/mutate_create.go:15-67 | the webhook's own patches, then the operator label, then the sorted diff, or the first failure |
| ClusterMutation.OwnPatchesExactly | pkg/cluster/mutate_create.go:69-102 | the own patches with their operations, paths and values written out, in order |
| ClusterMutation.DefaultNetworkInWords | pkg/cluster/mutate_create.go:72-80 | the default network and the JSON in its patch, written out |
| ClusterMutation.MutationFailsExactly | pkg/cluster/mutate_create.go:47-61 | the mutation fails iff the label or the diff does, with the error of the first |
| ClusterMutation.MutationFillsEmptyFields | pkg/cluster/mutate_create.go:15-102 | decoding the object after the whole output gives the original with exactly its empty fields filled and the label set |
| ClusterMutation.PatchedClusterExactly | pkg/cluster/mutate_create.go:69-102 | the fields of the object after the whole output, written out: port 443, the service range, the domain, the host below the base domain, or what was set |
| ClusterMutation.PatchedLabelExactly | pkg/mutator/component_version_label.go:15-30 | its operator label is that of the AzureCluster where it was missing, and all other labels stay |
| ClusterMutation.MutationAppliesExactly | pkg/cluster/mutate_create.go:15-102 | the whole output applies iff the diff does and the objects exist that fields or the label are added to |
| ClusterMutation.PatchesMayNotApply | pkg/cluster/mutate_create.go:88-102 | for every Cluster of this form, without an endpoint object, the mutation succeeds and its output cannot be applied |
| ClusterMutation.DefaultsPassValidation | pkg/cluster/control_plane_endpoint.go:12-47 | the filled object passes the creation checks iff the fields its user set do |
| ClusterMutation.EndpointRefusalIsJustified | pkg/cluster/control_plane_endpoint.go:36-47 | the check of the endpoint accepts just the one host and port 443, and refuses what is wrong |
| ClusterMutation.NetworkDecodes | pkg/cluster/mutate_create.go:71-80 | the members of a network by their names |
| ClusterMutation.NullMeansUnset | pkg/cluster/mutate_create.go:71 | a null network, range or slice counts as absent |
| JsonDecoding.DecodeIntExactly | pkg/cluster/mutate_create.go:97 | an integer member decodes iff it is absent, null or in 32 bits, and absent or null is 0 |
| JsonDecoding.DecodeStringExactly | pkg/cluster/mutate_create.go:89 | a string member decodes iff it is absent, null or a string, and absent or null is empty |
| ClusterMutation.MutationIsIdempotent | pkg/cluster/mutate_create.go:15-102 | a second mutation emits nothing, and the first does iff something was empty |
| PoolMutation.PoolPlacesAreSeparate | pkg/azuremachinepool/mutate_create.go:72-126 | none of the places of a node pool contains another: the patched ones, the VM size, the labels and the SSH key |
| PoolMutation.PoolPaths | pkg/azuremachinepool/mutate_create.go:106-125 | the pointers of the patched places are the paths that the webhook writes |
| PoolMutation.OwnPatches | pkg/azuremachinepool/mutate_create.go:24-46 | location, storage type and disks in this order, the storage type from a lookup with the fallback location, or the failure of that lookup |
| PoolMutation.OnCreateMutate | pkg/azuremachinepool/mutate_create.go:16-78 | then the release and the operator label, then the sorted diff without the SSH key, or the first failure |
| PoolMutation.OwnPatchesExactly | pkg/azuremachinepool/mutate_create.go:80-126 | the own patches with their operations, paths and values written out, in order |
| PoolMutation.DefaultDisksInWords | pkg/azuremachinepool/datadisks.go:13-24 | the default data disks and the JSON in their patch, written out |
| PoolMutation.MutationFailsExactly | pkg/azuremachinepool/mutate_create.go:24-70 | why the mutation fails: the lookup of the VM size when there is a storage type to fill, a label, or the diff |
| PoolMutation.MutationFillsEmptyFields | pkg/azuremachinepool/mutate_create.go:16-126 | decoding the object after the whole output gives the original with exactly its empty fields filled, by what Azure says of the VM size, and both labels set |
| PoolMutation.PatchedPoolExactly | pkg/azuremachinepool/mutate_create.go:80-126 | the fields of the object after the whole output, written out: a pool that named no storage type has Premium_LRS iff its VM size supports PremiumIO in the location it now has, and Standard_LRS iff it does not |
| PoolMutation.PatchedLabelsExactly | pkg/azuremachinepool/mutate_create.go:48-62 | its two version labels are those of the AzureCluster where they were missing, and all other labels stay |
| PoolMutation.OwnPatchesApplyExactly | pkg/azuremachinepool/mutate_create.go:80-126 | the webhook's own patches apply iff the objects exist that they add to, the managed disk among them |
| PoolMutation.MutationAppliesExactly | pkg/azuremachinepool/mutate_create.go:16-126 | the whole output applies iff the filtered diff does and the objects exist that fields or labels are added to |
| PoolMutation.PatchesMayNotApply | pkg/azuremachinepool/mutate_create.go:80-110 | for every pool of this form, without an OS disk object, the mutation succeeds and its output cannot be applied |
| PoolMutation.PatchesMayNotApplyExample | pkg/azuremachinepool/mutate_create.go:80-110 | one of them, with its labels and its VM size |
| PoolMutation.SshKeyStays | pkg/azuremachinepool/mutate_create.go:64-75 | the SSH key stays as it was, whatever the defaulting does at the key or inside it |
| PoolMutation.DefaultsPassValidation | pkg/azuremachinepool/storageaccounttype.go:13-36 | every filled field passes its creation check, also when the storage type was looked up for the fallback location |
| PoolMutation.MutationIsIdempotent | pkg/azuremachinepool/mutate_create.go:16-126 | a second mutation emits nothing, and the first does iff something was empty |
| Normalize.AsDNSLabelName | internal/normalize/normalize.go:21-55 | the collecting and trimming loops compute the normalised name |
| Normalize.NormalizedShape | internal/normalize/normalize.go:21-55 | only allowed characters, at most 63, no leading dash, a trailing dash only after a cut |
| Normalize.TrimmedKeepsContent | internal/normalize/normalize.go:24-48 | up to the cut all letters and digits of the lowered input come through in order |
| Normalize.GapsExactly | internal/normalize/normalize.go:24-33 | between two consecutive letters or digits the result has the dashes of the lowered input, and one more iff the gap starts with something else |
| Normalize.AdjacentExactly | internal/normalize/normalize.go:29-31 | so they are adjacent iff they were, and a gap without dashes becomes exactly one |
| Normalize.CaseDoesNotMatter | internal/normalize/normalize.go:24 | names that differ in case only are normalised alike |
| Normalize.NormalizeExample | internal/normalize/normalize.go:29-31 | "A b" becomes "a-b" |
| Normalize.EmptyExactly | internal/normalize/normalize.go:15-16 | the result is empty iff the lowered input has no allowed character but dashes |
| Normalize.NormalizeTwice | internal/normalize/normalize.go:36-54 | a second application only strips trailing dashes |
| Normalize.NormalizeTwiceIsFixedPoint | internal/normalize/normalize.go:36-54 | two applications reach a fixed point, one does iff there is no trailing dash |
| Normalize.IsLabelExactly | internal/normalize/normalize.go:12-14 | the exact condition under which the result is a DNS label |
| Normalize.ShortNamesExactly | internal/normalize/normalize.go:12-14 | for names of at most 63 characters: iff the lowered name has a letter or digit and no digit from outside ASCII |
| Normalize.LabelsAreFixed | internal/normalize/normalize.go:12-14 | a name that is a label already is left alone |
| Normalize.TrailingDashIsPossible | internal/normalize/normalize.go:50-52 | a name of letters and dashes whose result is no label |
| StatusErrors.IgnoreCAPIErrorForField | internal/errors/errors.go:98-150 | the surviving causes overwrite those in the shared details and the message is rebuilt; errors of other kinds and cleared errors change nothing |
| StatusErrors.BuildMessage | internal/errors/errors.go:125-141 | the builder loop renders header and causes |
| StatusErrors.MessageExamples | internal/errors/errors.go:125-141 | messages with one and with two causes, written out |
| StatusErrors.CandidateExactly | internal/errors/errors.go:13 | the pattern matches behind its words and one white space iff a closing bracket or the end comes before the next line break |
| StatusErrors.HeaderSpan | internal/errors/errors.go:13 | the header runs from the start of a line to the last such words on it, and no earlier position has a match |
| StatusErrors.IgnoreFields | pkg/azurecluster/validate_update.go:32-37 | a chain of calls on one error computes `IgnoreAll` |
| StatusErrors.RemainingCausesExactly | internal/errors/errors.go:109-127 | for all messages and causes a chain is cleared only if no cause survives all fields, otherwise leaves exactly those that do, and panics iff some call has causes to report and finds no header |
| StatusErrors.IgnoreAllExactly | internal/errors/errors.go:98-150 | from a message with a proper header a chain panics iff some later call has causes to report while those left so far hide the header, and otherwise gives nil or the survivors in order, rendered behind the header |
| StatusErrors.IgnoreAllWithoutHeader | internal/errors/errors.go:124-127 | from a message without a header the first call decides: nil or a panic |
| StatusErrors.OneLineNeverBreaks | internal/errors/errors.go:98-150 | causes without line breaks never make a chain panic |
| StatusErrors.FieldOrderExactly | internal/errors/errors.go:98-150 | two orders of the ignored fields give the same iff both chains panic in a later call or neither does |
| StatusErrors.FieldOrderIsIrrelevant | internal/errors/errors.go:98-150 | so the order does not matter for causes without line breaks |
| StatusErrors.FieldOrderMayMatter | pkg/azurecluster/validate_update.go:32-37 | a message with a header and three causes on which one order panics and the other does not |
| StatusErrors.HeaderOfMessage | internal/errors/errors.go:13 | the pattern finds the header in a message that was rebuilt |
| StatusErrors.HeaderFoundExactly | internal/errors/errors.go:13 | in a rebuilt message the pattern finds the header iff no line break comes before the first closing bracket |
| StatusErrors.PanicsExactly | internal/errors/errors.go:124-127 | a call panics iff some cause survives and the message has no match |
| StatusErrors.PanicIsPossible | internal/errors/errors.go:124-127 | a message with a line break in its first cause: ignoring the second cause panics |
| Zones.CheckAvailabilityZonesUnchanged | pkg/machinepool/validate_update.go:47-62 | accepts iff the lists are equal as multisets; both are sorted in place iff their lengths agree and keep their elements |
| Zones.ValidateAvailabilityZonesUnchanged | pkg/azureupdate/validate_azureconfig.go:121-137 | accepts iff the old list is empty or the lists are equal as multisets; the inputs are not modified |
| Zones.OnUpdateValidate | pkg/machinepool/validate_update.go:14-45 | deletion, library verdict, organization and zones in this order, with the error of the first that objects; both lists keep their elements |
| Zones.MachinePoolUpdateExactly | pkg/machinepool/validate_update.go:14-62 | an update is admitted iff it deletes, or the library allows it, the organization stays and the zones are equal as multisets |
| Zones.RefusalIsJustified | pkg/machinepool/validate_update.go:14-62 | every refusal names what is wrong with the update |
| Zones.ZonesNeverChange | pkg/machinepool/validate_update.go:14-62 | over every run of admitted updates a MachinePool keeps its organization and the multiset of its zones |
| Zones.ReachableZonesExactly | pkg/machinepool/validate_update.go:14-62 | after any run the next update is admitted iff it has the organization and, in some order, the zones of the start |

## Left out

- Deletion and the hand-over to other controllers: updates of deleted objects and of pools with a release from 20.0.0-v1alpha3 on are admitted unseen, so the results about runs assume that neither happens.
- HTTP handlers, decoding of requests, logging, metrics, start-up and the clients themselves.
- The JSON diff, upstream defaulting and upstream validation: values the model receives; the diff is assumed to stay away from the labels and the fields the webhooks read or fill, and not to replace the template of a pool as a whole.
- Patches into arrays: an array is a leaf, so an operation that leads into one counts as failing.
- Version and time parsing, the upgrade schedule, the legacy filter and release lookups: short chains with little to prove.
- The organization lookups and the Organization objects: a verdict.
- Supported availability zones of a VM size, and the creation check of node pools that uses them.
- Unsynchronised access to the Go map of cached sizes: the model reads and writes it atomically.
- Changes of the Azure catalogue over time: the listings of a location are fixed, and only requests may fail.
- Several lookups inside one node pool request: one part of the catalogue stands for all of them.
- The Cluster read through a stale client cache: the owner lookup sees the current Cluster or fails.
- Time between the check of a write and its store: they are one step, so an AzureCluster write that was checked before the Cluster moved on and is stored afterwards has no place in `CatchingUp.LeftBehindForever`.
- Changes of the AzureCluster's owner reference: its owner is the one Cluster throughout.
- Changes of the Release objects during an interleaving: the catalogue of a trace is fixed.
- Prices as pointers to big decimals: a price is compared by its plain fields.
- AzureConfig checks on updates that change the release, which return before them, and its master CIDR check.
- Skus.VMSKU.GetSKU: does not model concurrent calls; those are the steps in `SkuConcurrency`.
- StatusErrors.IgnoreAllExactly: does not model causes that contain the words "is invalid:" themselves, which move the header that later calls find; `StatusErrors.RemainingCausesExactly` covers them too.
- Zones.ValidateAvailabilityZonesUnchanged: does not promise anything for an empty old list, because the code accepts every change of it.
