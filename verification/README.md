# Garage operator: verified model

This project models the parts of the Garage operator that decide what may happen to stored data and to release
manifests, and proves what every input, every run and every reachable state of them satisfies.

- **Manifest image pinner** (`hack/pin-manifest-images.go`). `ImageFlags`, `ImageFlagTheorems` and `ImagePinLoop` are
  the scanner for image flags inside an argument, `ImagePatterns` ties its predicates to the regular expressions, and
  `ImageFlagLimits` shows that its conditions are exact. `Chains`,
  `ManifestGraph`, `ManifestCounts`, `ManifestProgress`, `ManifestPinnable`, `ManifestArguments` and `ManifestPinner` are
  the walk over a YAML node graph that may share nodes and be cyclic through aliases. Nodes, counters and the set of
  nodes on the current path are mutable objects. The walk skips the nodes on its path; that it still leaves every
  reachable node pinned is an argument about sets closed up to the path, together with the fact that nothing the walk
  writes later spoils what is in order.
- **GarageCluster conversion** (`api/v1beta1/garagecluster_conversion.go`). `MarkerFormat` is the comma-separated
  marker, `ClusterConversion` the two conversions on values, `ConversionTheorems` the round trips and scaling,
  `ConversionTransport` runs of v1beta1 clients, and `ConversionObjects` the same conversions on objects that share one
  annotation map.
- **Admission** (`api/v1beta1/garagenode_webhook.go`, `api/v1beta1/garagecluster_webhook.go`). `LayoutModel`,
  `LayoutOwner`, `NodeIdentity` and `NodeModel` hold the records, the search for the layout owner and node IDs;
  `NodeAdmission`, `NodeRules` and `NodeRuns` are updates of a GarageNode, the rules on the fields of the two objects that
  they come down to, and what their runs keep; `DrainContract` and
  `NodeDeletion` are deletions; `VolumeRules`, `NodeVolumes`, `ClusterVolumes`, `EnvironmentRules` and `JsonRemoval` are
  the rules for volumes, environments and ignored values.
- **Config resources** (`internal/controller/garage_config_resource.go`). `ConfigNames` and `ConfigCollector`.
- **PVC handoffs** (`internal/controller/automode_pvc_handoff.go`). `HandoffProtocol` is a state machine of concurrent
  callers against a store with resource versions.

`Options` is the type of values that may be absent.

Some promises turned out not to hold of the code as it is; each has a lemma with an input and one with the exact
condition.

- The flag scanner can slice backwards and panic: `ScannerPanics` gives the text, `FlagsExact` says exactly when.
- With a bare image flag as the source of a mapping, the values of two flags can overlap and both are replaced:
  `BareFlagOverlaps` gives the text, `LoopRewritesExactly` says that no other mapping does this.
- With a target that holds a quote or a vertical tab, or is itself a flag, the scanner's own output is not pinned when
  it is scanned again: `BrokenTarget` and `FlagTarget` give the texts, `TargetsExactly` the exact condition.
- A digest-pinned text can stop being pinned when it is also scanned for flags: `PinnedCanBreak` gives the text,
  `PinnedStaysExactly` says exactly when. The walk is therefore stated for manifests whose pinned texts hold no unpinned
  flag.
- Reading a hub through v1beta1 and writing it back erases `connection.storageRpcEndpointTemplate` of every remote
  cluster, which v1beta1 does not have and no payload carries, against the comment above `ConvertFrom`
  (`api/v1beta1/garagecluster_conversion.go:230`) and the federation setup of `docs/how-to/federation.md:65`:
  `RemoteTemplateLost` gives a hub, `HubRoundTrip` and `ScaleCommutes` the exact conditions, and `WriteKeeps` and
  `RunKeepsHidden` say that a single stored v1beta1 write erases all of them.
- The comment above `ConvertTo` (`api/v1beta1/garagecluster_conversion.go:58-59`) calls it lossless for everything that
  v1beta1 validation admits. A management handle keeps only its connection, so a handle view with other fields loses
  them: `HandleLosesAddress` gives one, `ViewRoundTrip` the exact condition. Likewise a hub whose view reads back as a
  handle does not survive: `EmptyStorageLost` gives one, `HubRoundTrip` the exact condition.
- A v1beta1 client cannot remove the metadata or retention settings of a gateway that travels in a payload; it reads them
  again: `RemovedPolicyReturns` gives a hub, `ShownExactly` the exact condition for reading back what was written.
- An empty revision is named like the digest of its base: `EmptyRevisionCollides`; `RevisionNameExact` says exactly when
  two revisions of one base share a name. A caller has to guard against the empty one, as
  `internal/controller/garagecluster_gateway.go:427` does.

## Model

| member | source | states |
|---|---|---|
| Chains.WalkExact | hack/pin-manifest-images.go:55-65 | following references under a visited set always ends; it finds the end of the chain exactly when there is one, breaks off exactly at a missing target, and reports a cycle exactly when the chain comes back to a key |
| Chains.WalkShared | api/v1beta1/garagenode_webhook.go:1022-1056 | every key on a chain has the outcome of the chain's start |
| ImagePinLoop.ImagePins.Pin | hack/pin-manifest-images.go:44-53 | a pinned reference stays, a mapped one gets its pin and raises exactly its own counter by one, any other is an error |
| ImagePinLoop.FindValue | hack/pin-manifest-images.go:87-104 | where the value of one flag match starts and ends, or that it is missing or quoted |
| ImagePatterns.PinnedExact | hack/pin-manifest-images.go:16 | a reference is pinned exactly if it is a name without at-signs or spaces, the digest mark and 64 hexadecimal digits |
| ImagePatterns.SplitFlagExact | hack/pin-manifest-images.go:18 | an argument is a bare flag exactly if it is two dashes and image, or a prefix of name characters and -image |
| ImagePatterns.FlagBodyExact | hack/pin-manifest-images.go:17 | a flag inside a text is such a name and then a delimiter or the end, although the scanner takes the longest run of name characters instead of backtracking |
| ImagePinLoop.PinImageFlags | hack/pin-manifest-images.go:80-115 | the loop over regular-expression matches computes the scanner's outcome, panic included, and each counter rises by the number of uses of its mapping |
| ImagePinLoop.LookedUpRefs | hack/pin-manifest-images.go:87-112 | when the rewriting exists, the references looked up are the flag values in order |
| ImageFlagTheorems.LoopRewrites | hack/pin-manifest-images.go:80-115 | the loop returns a text exactly when replacing flag values one after the other gives one, and then the same text; it panics exactly where foreseen; for mappings without a bare image flag as a source |
| ImageFlagTheorems.RewriteSettles | hack/pin-manifest-images.go:80-115 | after a rewrite every flag value is pinned, the text between values is unchanged and each value is the pin of the old one |
| ImageFlagTheorems.FlagsExact | hack/pin-manifest-images.go:80-115 | success exactly when the rewriting exists; then only value spans changed, each to its pin, and the result is settled; panic exactly when the first value that cannot be taken is a pinned flag with a pinned value |
| ImageFlagTheorems.FlagsFixpoint | hack/pin-manifest-images.go:80-115 | a settled text is left as it is, for any mappings at all |
| ImageFlagTheorems.ScannerPanics | hack/pin-manifest-images.go:87-112 | two spaces before a second, pinned flag make the loop slice backwards, whatever the mappings |
| ImageFlagTheorems.PinnedCanBreak | hack/pin-manifest-images.go:80-115 | a digest-pinned text with a quoted flag inside is rewritten to one that is not pinned |
| ImageFlagTheorems.PinnedStaysExactly | hack/pin-manifest-images.go:80-115 | a pinned text that the scanner accepts stays pinned if and only if its own flags were pinned |
| ImageFlagLimits.BareFlagOverlaps | hack/pin-manifest-images.go:87-112 | a bare image flag as a source makes the loop take a text whose flag values overlap |
| ImageFlagLimits.LoopRewritesExactly | hack/pin-manifest-images.go:80-115 | the loop agrees with the rewriting on every text if and only if no source is a bare image flag |
| ImageFlagLimits.BrokenTarget | hack/pin-manifest-images.go:105-112 | a target that is not one word leaves a flag value that is not pinned |
| ImageFlagLimits.FlagTarget | hack/pin-manifest-images.go:105-112 | a target that is a flag leaves a text in which it is found again as a flag |
| ImageFlagLimits.TargetsExactly | hack/pin-manifest-images.go:80-115 | for sources that are ordinary words, everything the scanner returns is settled if and only if every target is one word that is not a flag |
| ManifestPinner.ParseImagePins | hack/pin-manifest-images.go:26-42 | accepted exactly when there is a mapping, every mapping is valid and no source occurs twice; the result is those mappings and no others |
| ManifestPinner.MappingExact | hack/pin-manifest-images.go:32-36 | a mapping is valid exactly if it is a source without equals sign, at-sign or space, an equals sign and a pinned reference |
| ManifestArguments.ResolveAlias | hack/pin-manifest-images.go:55-65 | the node an alias chain ends at, and none for a nil or cyclic alias, in a finite graph of any shape |
| ManifestArguments.PinText | hack/pin-manifest-images.go:72-77 | succeeds exactly when the text has a pin, and then only this text changed, to that pin |
| ManifestArguments.PinImageScalar | hack/pin-manifest-images.go:67-78 | succeeds exactly when the value resolves to a non-null scalar with a pin; then it is pinned and no other text changed |
| ManifestArguments.PinArgument | hack/pin-manifest-images.go:152-156 | the outcome is the scanner's, and the text becomes the scanner's |
| ManifestArguments.PinFollower | hack/pin-manifest-images.go:136-150 | the element after a split flag must be a scalar with a pin; both elements end in order |
| ManifestArguments.PinArgumentAt | hack/pin-manifest-images.go:131-157 | one turn: which elements it consumes, exactly when it succeeds, and that those elements end in order |
| ManifestArguments.PinArgumentSequence | hack/pin-manifest-images.go:126-159 | on success every element and every reference after a split flag is pinned, although elements may be shared; it succeeds whenever all of them can be pinned; only elements change |
| ManifestPinner.PinEntry | hack/pin-manifest-images.go:177-190 | an image, args or command entry ends pinned, other keys do nothing, and a change of texts cannot turn another key into one of these |
| ManifestPinner.PinNode | hack/pin-manifest-images.go:161-197 | ends for every finite graph; the nodes covered are in order and closed except for nodes on the path; the path is restored, the shape unchanged, only targets of covered mappings change; it succeeds whenever everything below can be pinned and leaves what is in order alone |
| ManifestPinner.PinContent | hack/pin-manifest-images.go:169-195 | the same for a node on the path: it joins the covered nodes and leaves the path |
| ManifestPinner.PinKid | hack/pin-manifest-images.go:171-193 | one child: its mapping entry first, then the walk below it |
| ManifestGraph.ChildrenExact | hack/pin-manifest-images.go:169-195 | on the shape alone: the walk steps from a document or sequence to what every entry resolves to, from a mapping to what every value resolves to, and nowhere else |
| ManifestPinner.CoveredIsPinned | hack/pin-manifest-images.go:161-168 | a covered set that is closed up to an empty path contains everything reachable, so skipping nodes on the path misses none |
| ManifestPinner.EveryImagePinned | hack/pin-manifest-images.go:177-183 | in a pinned document, whatever chain of entries leads to a mapping, the scalar under its image key is digest-pinned |
| ManifestPinner.EveryArgumentPinned | hack/pin-manifest-images.go:184-190 | and in the sequence under an args or command key every flag value and every reference after a split flag is pinned |
| ManifestPinner.PinDocument | hack/pin-manifest-images.go:218-223 | on success everything that a chain of entries leads to from the document is pinned; a pinned document is not changed |
| ManifestPinner.PinManifest | hack/pin-manifest-images.go:199-236 | on success every document is pinned in the final texts and every mapping is needed by some reachable node; if all documents can be pinned it succeeds if and only if there is a document with content and every mapping is needed, as the texts were at the start |
| ManifestPinner.CountersExact | hack/pin-manifest-images.go:232-236 | after the walk a counter is positive exactly when some reachable mapping looks its source up in the texts as they were: as an image value, after a split flag, or as a flag value |
| ManifestCounts.TalliedJoin | hack/pin-manifest-images.go:44-53 | a text changes at most once, and every change raised the counters of the mappings used for it |
| ManifestCounts.WantedBack | hack/pin-manifest-images.go:161-197 | a lookup that is found after some writes was there before them |
| ManifestCounts.WantMet | hack/pin-manifest-images.go:232-236 | a reference wanted by a node that ended in order was counted on the way |
| ManifestGraph.EvolvesKeeps | hack/pin-manifest-images.go:126-197 | what one write can do to a text: pinned and settled texts stay, and no key or bare flag appears |
| ManifestGraph.NodeOkStays | hack/pin-manifest-images.go:161-197 | once a mapping is in order, no later write spoils it |
| ManifestPinnable.PinnableStays | hack/pin-manifest-images.go:161-197 | what can be pinned before a stretch of the walk can be pinned after it, although the walk rewrites shared texts |
| ManifestPinnable.OkPinnable | hack/pin-manifest-images.go:161-197 | what is in order can be pinned |
| MarkerFormat.SplitJoin | api/v1beta1/garagecluster_conversion.go:616-636 | splitting the joined components gives them back |
| MarkerFormat.JoinSplit | api/v1beta1/garagecluster_conversion.go:616-636 | joining the components of a marker gives it back |
| MarkerFormat.AppendHas | api/v1beta1/garagecluster_conversion.go:616-626 | after appending, exactly the old components and the new one are present |
| MarkerFormat.RemoveHas | api/v1beta1/garagecluster_conversion.go:628-636 | after removing, exactly the other components are present |
| MarkerFormat.RemoveUndoesAppend | api/v1beta1/garagecluster_conversion.go:616-636 | removing a component that was just appended gives the marker back |
| ConversionTheorems.EntriesRoundTrip | api/v1beta1/garagecluster_conversion.go:486-614 | the payloads come out of the annotations as they went in, and taking them out leaves the map as it was |
| ConversionTheorems.BackFromView | api/v1beta1/garagecluster_conversion.go:60-220 | what ConvertTo gives for any edited view that still carries its hub's payloads; ReadsBack says what that is for the client |
| ConversionTheorems.ReadsBack | api/v1beta1/garagecluster_conversion.go:565-614 | a client reads back what it wrote over any hub: every field of a storage view; of a gateway view replicas, scheduling, budget, connection and remotes, and metadata and retention laid over the preserved ones; of a handle its connection |
| ConversionTheorems.ShownExactly | api/v1beta1/garagecluster_conversion.go:565-614 | it is exactly what was written if and only if a handle is bare, a gateway view uses no ignored field, and no metadata or retention setting that a payload preserves was removed |
| ConversionTheorems.RemovedPolicyReturns | api/v1beta1/garagecluster_conversion.go:594-599 | an edge gateway whose retention policy comes back after a client removed it |
| ConversionTheorems.CarriesExact | api/v1beta1/garagecluster_conversion.go:444-472 | a gateway travels in a payload exactly next to a storage tier or when it uses an RPC address, a readiness probe, env or envFrom |
| ConversionTheorems.HubRoundTrip | api/v1beta1/garagecluster_conversion.go:60-442 | ConvertTo after ConvertFrom gives back spec and annotations if and only if the hub declares a tier or a connection, is not the shape that reads back as a handle, and no remote cluster has a storage template; without the last condition the templates are all that is lost |
| ConversionTheorems.PlainHubRoundTrip | api/v1beta1/garagecluster_conversion.go:60-442 | the same for every hub without reserved annotations |
| ConversionTheorems.RemotesBack | api/v1beta1/garagecluster_conversion.go:131-133 | a trip through v1beta1 erases the storage templates of the remote clusters and nothing else of them |
| ConversionTheorems.RemoteTemplateLost | api/v1beta1/garagecluster_conversion.go:308-310 | a federated hub comes back with its remote site but without the storage template |
| ConversionTheorems.ViewRoundTrip | api/v1beta1/garagecluster_webhook.go:1842-1880 | a view without payloads survives the trip if and only if it uses no ignored gateway field and, as a handle, is bare; the trip never adds an annotation |
| ConversionTheorems.IgnoredExactly | api/v1beta1/garagecluster_webhook.go:1842-1880 | the list of ignored fields is empty exactly when a gateway view uses only metadata and retention |
| ConversionTheorems.HandleLosesAddress | api/v1beta1/garagecluster_conversion.go:163-167 | a handle view with an RPC address comes back without it |
| ConversionTheorems.EmptyStorageLost | api/v1beta1/garagecluster_webhook.go:1655-1661 | a storage tier at zero replicas without volumes, next to a connection, comes back as a bare handle |
| ConversionTheorems.ScaleCommutes | api/v1beta2/garagecluster_scale_webhook.go:97-132 | scaling through v1beta1 equals editing the replicas of the view, also over stale payload replicas, if and only if the scaled hub is not the ambiguous shape and no remote cluster has a storage template; without the last condition the templates are all that differs |
| ConversionTheorems.ScaleShows | api/v1beta2/garagecluster_scale_webhook.go:97-132 | scaling sets the replicas that the view shows, and changes no other field of it, no remote cluster and no hidden tier |
| ConversionTheorems.ScaleRefused | api/v1beta2/garagecluster_scale_webhook.go:97-132 | it is refused exactly for another version, without a tier of the requested version, or under the Manual policy that applies to the tier |
| ConversionTransport.StoredWrite | api/v1beta1/garagecluster_webhook.go:739-811 | a write that passes the transport check and converts stores the spec behind the edited view and clean annotations |
| ConversionTransport.TransportExact | api/v1beta1/garagecluster_webhook.go:739-811 | for the view of a hub the check accepts exactly the annotations with the hub's payloads unchanged and each conversion component present exactly if its payload is |
| ConversionTransport.UneditedStored | api/v1beta1/garagecluster_webhook.go:739-811 | writing back an unedited view is never denied, and stores the same spec and annotations exactly under the conditions of HubRoundTrip |
| ConversionTransport.WriteReadsBack | api/v1beta1/garagecluster_conversion.go:60-442 | after any stored write, whatever it edited, the client reads what it wrote in the sense of ReadsBack |
| ConversionTransport.WriteKeeps | api/v1beta1/garagecluster_webhook.go:739-811 | every write is refused or keeps the hidden pools, and the hidden gateway while the gateway flag stays; a stored write leaves every remote cluster without a storage template |
| ConversionTransport.RunKeepsHidden | api/v1beta1/garagecluster_conversion.go:529-614 | over any run of v1beta1 writes the pools are what they were, and with a constant gateway flag so are a unified gateway tier and an edge gateway's v1beta2-only fields; if any write was stored no storage template is left, otherwise nothing changed |
| ConversionObjects.HubObject.ConvertTo | api/v1beta1/garagecluster_conversion.go:60-220 | on objects: the hub takes over the view's annotation map and takes the payloads out of it in place, also on an error |
| ConversionObjects.ViewObject.ConvertFrom | api/v1beta1/garagecluster_conversion.go:234-442 | on objects: the view shares the hub's annotation map and writes the payloads into it; without one it gets a new map |
| ConversionObjects.RoundTrip | api/v1beta1/garagecluster_conversion.go:60-442 | three objects share one map, which ends exactly as it began unless the conversion fails; the spec comes back exactly under the conditions of HubRoundTrip |
| LayoutOwner.ResolveOwner | api/v1beta1/garagenode_webhook.go:1022-1056 | the loop with its visited set ends on every finite store and returns the owner, or which way it failed |
| LayoutOwner.TerminalExact | api/v1beta1/garagenode_webhook.go:1022-1056 | the walk goes on exactly from a cluster without a storage tier that names a cluster, unless it is a handle with an admin endpoint |
| LayoutOwner.OwnerExact | api/v1beta1/garagenode_webhook.go:1022-1056 | it returns the terminal cluster on the chain when there is one, and fails exactly on a missing target or a reference cycle |
| LayoutOwner.OwnerByPath | api/v1beta1/garagenode_webhook.go:1022-1056 | the owner is found if and only if a path of references, stated on the fields of the clusters, leads to it and it keeps its own layout |
| LayoutOwner.OwnerShared | api/v1beta1/garagenode_webhook.go:1022-1056 | all clusters on a chain have one owner, which is its own owner |
| NodeIdentity.CanonicalIdempotent | api/v1beta1/garagenode_webhook.go:1564-1572 | canonical IDs may be compared as they are |
| NodeIdentity.TrimExact | api/v1beta1/garagenode_webhook.go:1570-1572 | trimming takes the space off both ends and nothing else |
| NodeModel.ResolvedExact | api/v1beta1/garagenode_webhook.go:1578-1618 | the identity is that of the status, else of the spec, else of a recovery pin, and a pin counts exactly for a pool-backed node that its cluster controls |
| LayoutModel.FirstConditionExact | api/v1beta1/garagenode_webhook.go:1159-1207 | the condition that decides is the first of its kind |
| LayoutModel.ReadyExact | api/v1beta1/garagenode_webhook.go:1058-1207 | ready means a handle ready in its generation, or no migration and no rollout, consistent mode, the first rollout condition true in this generation, every storage node up and every partition complete; active rollout means the record or the condition |
| NodeIdentity.ValidIsCanonical | internal/storagecontract/contract.go:202-212 | valid IDs and their canonical forms |
| NodeIdentity.NormalizeIsSet | internal/storagecontract/contract.go:57-76 | the result is the strictly ascending list of the canonical non-blank IDs |
| NodeIdentity.NormalExact | internal/storagecontract/contract.go:57-76 | a list is its own normal form exactly when it is ascending and every entry is canonical and not blank |
| NodeAdmission.ValidateUpdate | api/v1beta1/garagenode_webhook.go:126-286 | accepts exactly when cycle, lock, identity, environment, annotation, acknowledgement and volume rules all do; NodeRules.UpdateExact says what these are |
| NodeRules.UpdateExact | api/v1beta1/garagenode_webhook.go:126-286 | an update is accepted if and only if it satisfies the rules below, stated on the fields of the two objects |
| NodeRules.CycleExact | api/v1beta1/garagenode_webhook.go:139-146 | the spec may differ exactly if neither object asks for a cycle and no phase is set; a request is not withdrawn in phase Draining with the drain requested |
| NodeRules.LockExact | api/v1beta1/garagenode_webhook.go:493-616 | with a lock held a change passes if and only if exactly one record is active and it is the recorded member changing only its overrides, the recorded member declared lost under the recorded ID, or the draining object declaring one of the removed IDs lost |
| NodeRules.LayoutExact | api/v1beta1/garagenode_webhook.go:147-177 | a change needs the owner without a lock or a way through it; a cycle begins only with the owner found and ready |
| NodeRules.IdentityExact | api/v1beta1/garagenode_webhook.go:178-205 | backing, tier, cluster, external kind, Garage ID, pin and pool placement are compared up to defaults and spelling |
| NodeRules.AnnotationsExact | api/v1beta1/garagenode_webhook.go:1278-1317 | which drain, cycle, acknowledgement and recovery annotations a node may carry |
| NodeRules.AcknowledgementExact | api/v1beta1/garagenode_webhook.go:259-273 | an acknowledgement is set once, for an ID that either object is known by |
| NodeRuns.LockHolds | api/v1beta1/garagenode_webhook.go:493-616 | every way through a lock needs exactly one active record that names this object and keeps the spec but for its overrides; overrides change under a rollout only, and a drain request changes only with a first acknowledgement |
| NodeRuns.FrozenWhileLocked | api/v1beta1/garagenode_webhook.go:126-177 | while the owner holds a rollout or drain record, the spec without overrides is constant over any run; for every object that is not the recorded one, or with both records active, spec, drain, acknowledgement and cycle requests are all constant |
| NodeRuns.FrozenWhileCycling | api/v1beta1/garagenode_webhook.go:139-141 | while a cycle is requested or a phase is set in every state of a run, the spec is constant |
| NodeRuns.CycleNotWithdrawn | api/v1beta1/garagenode_webhook.go:142-146 | a cycle request stays over any run in phase Draining with the drain requested |
| NodeRuns.CycleStartsSafely | api/v1beta1/garagenode_webhook.go:241-258 | over any run a cycle request comes about only by a step that keeps the spec, of a node that is neither external nor pool-backed, with the resolved owner ready |
| NodeRuns.AcknowledgementStays | api/v1beta1/garagenode_webhook.go:259-273 | an acknowledged ID stays over any run, and the drain request with it |
| NodeRuns.AcknowledgementArises | api/v1beta1/garagenode_webhook.go:259-273 | an acknowledgement is for a known identity of the node, a valid ID, and comes with a drain request |
| NodeRuns.IdentityStays | api/v1beta1/garagenode_webhook.go:178-205 | backing, tier, cluster, Garage ID, recovery pin and pool placement are constant over any run |
| NodeRuns.VolumesStayAttached | api/v1beta1/garagenode_webhook.go:639-670 | over any run a StatefulSet-backed node keeps the source and path of every volume, and sizes only grow |
| NodeRuns.EnvironmentShrinks | api/v1beta1/garagenode_webhook.go:222-231 | over any run the unsafe environment entries of a node only disappear |
| NodeVolumes.VolumeUpdateExact | api/v1beta1/garagenode_webhook.go:672-733 | the check accepts exactly the same volume, tidied of ignored fields or grown, and for a read-only entry that mounts nothing any volume in its place |
| NodeVolumes.StorageUpdateExact | api/v1beta1/garagenode_webhook.go:639-670 | a storage section is accepted exactly if it is volume by volume, with as many data paths as before |
| NodeVolumes.UpdateAttached | api/v1beta1/garagenode_webhook.go:672-733 | an accepted update keeps path, source and at least the size of a volume that has a source |
| NodeVolumes.SourceRepair | api/v1beta1/garagenode_webhook.go:704-722 | only a released read-only entry without a source can gain one |
| NodeVolumes.RunAttached | api/v1beta1/garagenode_webhook.go:639-733 | the same over any run of accepted storage updates |
| ClusterVolumes.ShapeUpdateExact | api/v1beta1/garagecluster_webhook.go:2170-2323 | the check on claim settings accepts exactly the same settings or ones without what was ignored |
| ClusterVolumes.PathUpdateExact | api/v1beta1/garagecluster_webhook.go:480-510 | the check on one data path in terms of what stays and what grows |
| ClusterVolumes.VolumeUpdateExact | api/v1beta1/garagecluster_webhook.go:459-521 | the per-step check, although it normalises by the old side only, is exactly an order on volumes |
| ClusterVolumes.LiveExact | api/v1beta1/garagecluster_webhook.go:657-660 | a live default pool is one of a storage cluster with replicas that is not placed manually |
| ClusterVolumes.GatewayMetadataExact | api/v1beta1/garagecluster_webhook.go:416-448 | the metadata of a gateway may lose ignored settings and change in nothing else |
| ClusterVolumes.UpdateExact | api/v1beta1/garagecluster_webhook.go:416-448 | an update is accepted if and only if a gateway with replicas keeps its metadata and, with a live pool before or after, the volumes stay |
| ClusterVolumes.RunStays | api/v1beta1/garagecluster_webhook.go:416-448 | over any run with a live default group the first and last volumes are in that order |
| ClusterVolumes.RunKeepsShapes | api/v1beta1/garagecluster_webhook.go:416-521 | over any such run every volume and data path keeps its effective shape, and every size and capacity is non-decreasing |
| EnvironmentRules.IndexOf | api/v1beta1/garagecluster_webhook.go:1435-1451 | an index of an equal entry, or that there is none |
| EnvironmentRules.IsSubset | api/v1beta1/garagecluster_webhook.go:1453-1463 | greedy removal decides inclusion of multisets |
| EnvironmentRules.Neutralize | api/v1beta1/garagecluster_webhook.go:1348-1433 | accepts exactly when the new unsafe entries are a sub-multiset of the old, and returns the safe entries in order |
| EnvironmentRules.ValidateEnvironment | api/v1beta1/garagecluster_webhook.go:1298-1347 | no more entries than the limit, and no reserved name or prefix |
| EnvironmentRules.ReservedSourceExact | api/v1beta1/garagecluster_webhook.go:1333-1340 | a source is reserved exactly if some key behind its prefix is a reserved name |
| EnvironmentRules.ValidateUpdate | api/v1beta1/garagecluster_webhook.go:1348-1433 | the two together accept exactly what an update may do, overlong lists included |
| EnvironmentRules.RunShrinks | api/v1beta1/garagecluster_webhook.go:1298-1463 | over any run unsafe multisets only shrink and the number of other variables never exceeds the limit or its first value |
| JsonRemoval.RemovesReflexive | api/v1beta1/garagecluster_webhook.go:1958-1980 | removal is reflexive |
| JsonRemoval.RemovesTransitive | api/v1beta1/garagecluster_webhook.go:1958-1980 | removal is transitive |
| JsonRemoval.RemovesAntisymmetric | api/v1beta1/garagecluster_webhook.go:1958-1980 | removal is antisymmetric |
| JsonRemoval.RemovesShrinks | api/v1beta1/garagecluster_webhook.go:1958-1980 | a removal that changes anything has fewer nodes |
| JsonRemoval.RemovesExact | api/v1beta1/garagecluster_webhook.go:1958-1980 | a change is a removal if and only if under every path that is left there was the same value, an object where an object is left, or a list where an empty one is |
| JsonRemoval.ValidateIgnoredUpdate | api/v1beta1/garagecluster_webhook.go:1921-1940 | the field-by-field loop accepts exactly the removals |
| JsonRemoval.RunSettles | api/v1beta1/garagecluster_webhook.go:1882-1980 | over any run the ignored values never grow and change at most as often as they have nodes |
| DrainContract.IDSetExact | internal/storagecontract/contract.go:169-183 | a target set is canonical exactly when it is a strictly ascending list of valid IDs |
| DrainContract.NamedIsListed | internal/storagecontract/contract.go:169-183 | in a canonical set an ID is named in some spelling exactly when it is listed |
| DrainContract.HasOne | internal/storagecontract/contract.go:185-192 | requiring one canonical ID means that it is listed |
| DrainContract.TerminalExact | internal/storagecontract/contract.go:96-167 | a record is valid if and only if exactly this actor began and finished it, its three ascending ID sets are nested and covered by its hash, and it lists every required ID |
| NodeDeletion.ValidateDelete | api/v1beta1/garagenode_webhook.go:736-894 | a node without a reference may go, without its cluster only a gateway, otherwise exactly when the owner is found without an active rollout and the deletion is justified, for storage and for gateway nodes |
| NodeDeletion.OwnDrainExact | api/v1beta1/garagenode_webhook.go:772-820 | the checks on a node's own drain record hold exactly when a valid terminal record of this very object removed its resolved ID |
| NodeDeletion.DeleteExact | api/v1beta1/garagenode_webhook.go:736-894 | a storage node goes if and only if its owner is found without an active rollout and one of four reasons holds, each on the fields: the parent is deleting with policy Destroy, or without a policy and without remote clusters; the node has no identity anywhere; the whole cluster was drained; or this object was drained, every storage node is up and every partition complete, no pod of a lost node is left, and unverified peers are accepted or absent |
| NodeDeletion.FederatedNodeNeedsDrain | api/v1beta2/garagecluster_helpers.go:58-69 | a cluster with remote sites and no deletion policy never lets an identified node go without a completed drain of the node or of the whole cluster |
| NodeDeletion.SafetyExact | api/v1beta1/garagenode_webhook.go:896-975 | no pod of the source means none in its pool on its node, or none of its name; unverified peers are an external node or a remote cluster |
| NodeDeletion.NeverInLayoutExact | api/v1beta1/garagenode_webhook.go:930-950 | prepared without layout means: asked to drain, no identity in status, spec or pin, and the controller said so for this generation |
| NodeDeletion.GatewayAcceptsExact | api/v1beta1/garagenode_webhook.go:772-846 | a gateway goes if and only if the whole cluster was drained, or no drain of another object is under way, its own retirement moved no data, and its workload is external, its cluster is going or propagation is not foreground |
| NodeDeletion.OneDrainOneNode | api/v1beta1/garagenode_webhook.go:1076-1103 | one drain record never drains two different objects |
| NodeDeletion.OneAtATime | api/v1beta1/garagenode_webhook.go:736-894 | one state of a layout lets two different nodes with identities go only if the owner is destroyed or the whole cluster was drained |
| ConfigNames.RevisionName | internal/controller/garage_config_resource.go:87-103 | a name never exceeds 253 characters |
| ConfigNames.RevisionNameExact | internal/controller/garage_config_resource.go:87-103 | two hexadecimal revisions of one base, of any lengths and empty ones included, share a name if and only if they agree after truncation or one is empty and the other is the digest of the base |
| ConfigNames.RevisionNameInjective | internal/controller/garage_config_resource.go:87-103 | for one base, names of revisions of equal truncated length are equal exactly when the truncated revisions are, in the hashed-prefix branch too |
| ConfigNames.EmptyRevisionCollides | internal/controller/garage_config_resource.go:87-103 | an empty revision is named like the base's own digest |
| ConfigNames.ShortBasesDiffer | internal/controller/garage_config_resource.go:87-103 | bases that fit get different names |
| ConfigNames.LongName | internal/controller/garage_config_resource.go:87-103 | a base that does not fit becomes the longest prefix that does beside eight digits of its digest and does not end in a dash or dot |
| ConfigNames.LongBasesDiffer | internal/controller/garage_config_resource.go:87-103 | two such bases share a name only if those digits agree |
| ConfigCollector.MountedIsReferred | internal/controller/garage_config_resource.go:150-166 | what a template mounts is among what its pods refer to |
| ConfigCollector.MountedExact | internal/controller/garage_config_resource.go:150-166 | a template mounts the ConfigMap, or without one the Secret, of its first config volume |
| ConfigCollector.PodReferences | internal/controller/garage_config_resource.go:218-243 | exactly the resources that some pod's config volume names, by kind |
| ConfigCollector.AddTemplates | internal/controller/garage_config_resource.go:258-284 | and exactly those that some workload template mounts |
| ConfigCollector.CollectCandidates | internal/controller/garage_config_resource.go:301-319 | exactly the shared, gateway, node and legacy base names with the cluster and its nodes as owners |
| ConfigCollector.IsObsolete | internal/controller/garage_config_resource.go:320-343 | not pool-labelled, a known base, a matching controller and not in use |
| ConfigCollector.CleanKind | internal/controller/garage_config_resource.go:344-357 | one kind: on success exactly the obsolete ones are gone, and it fails exactly when one of them cannot be deleted |
| ConfigCollector.Cleanup | internal/controller/garage_config_resource.go:250-368 | on success exactly the obsolete resources are gone; on an error what is gone was obsolete, and nothing if the first reads failed; it succeeds exactly when no read, no listing and no deletion of an obsolete resource fails; a resource in use stays |
| HandoffProtocol.NextInv | internal/controller/automode_pvc_handoff.go:93-123 | every step of every party keeps the invariant |
| HandoffProtocol.NoLostUpdate | internal/controller/automode_pvc_handoff.go:93-123 | from any initial state, under every interleaving, the stored list is the first list of the incarnation folded through the functions of all commits made to it since, in order; each caller commits at most once and exactly when it reports success; a caller with a UID never writes to a recreated cluster; attempts are bounded |
| HandoffProtocol.UndisturbedSucceeds | internal/controller/automode_pvc_handoff.go:93-123 | a caller that nobody disturbs commits its function of the list |
| HandoffProtocol.FailsExactly | internal/controller/automode_pvc_handoff.go:93-123 | under every interleaving a caller fails if and only if the cluster was absent or another one, its function failed, an update failed otherwise, or exactly as many conflicts as attempts happened |
| HandoffProtocol.RetriesThenCommits | internal/controller/automode_pvc_handoff.go:93-123 | after any run in which it lost fewer races than it has attempts, a caller that is left alone commits its function of the list as it is then |
| HandoffProtocol.RacesCost | internal/controller/automode_pvc_handoff.go:93-123 | each lost race costs one attempt and nothing else, and the last one is fatal |
| HandoffProtocol.RetainedHandoff | internal/controller/automode_pvc_handoff.go:36-86 | granted exactly when the node is an operator-managed node of the cluster and the only record for the claim names this slot, claim and node, its hash is the digest of the node's nonce, and the claim is pinned to the old or the new node; refused when there are two records or the one does not match |
| HandoffProtocol.OneNodePerClaim | internal/controller/automode_pvc_handoff.go:36-78 | one status grants a claim to one node at most |

## Left out

- ImageFlagTheorems.RewriteSettles: needs sources that are no bare image flags and targets that are words and no flags, and so do FlagsExact and the walk below; LoopRewritesExactly and TargetsExactly show that the conditions are needed.
- ImageFlagTheorems.LoopRewrites: needs sources that are no bare image flags, exactly as LoopRewritesExactly says.
- ImageFlagTheorems.FlagsExact: same conditions as RewriteSettles.
- ManifestPinner.PinNode: stated, like every method of the walk, for mappings as in RewriteSettles and for manifests whose pinned texts hold no unpinned flag (PinnedCanBreak); that it succeeds is promised when every reachable reference has a pin, although with shared nodes the walk can also succeed where an argument scan happens to pin an image text first.
- ManifestPinner.PinManifest: the exact success condition is for sources that are not the keys image, args or command and hold no flags; a source of that kind can rewrite a shared key. YAML decoding and encoding, input and output are not modelled.
- Characters: texts are sequences of characters, not bytes; lower-casing and folding of node IDs are those of ASCII. Regular expressions are written out as predicates, which `ImagePatterns` ties to the languages they denote; a regular expression engine is not modelled.
- Conversion: JSON bytes are replaced by an encoder and decoder with the usual laws; a nil and an empty list or map are one value; status conversion is not modelled; fields that both versions copy unchanged are one value.
- Cluster admission: validateGarageCluster, layout ownership, rollout recovery, positive-capacity removal and ValidateDelete of clusters are not modelled; they compare values field by field. The v1beta2 webhook is not modelled.
- NodeAdmission.ValidateUpdate: the rules for names, pod labels, zones, tags, node-local-pool owners, cycle source profiles and legacy volume warnings are one input, `other`; a missing API reader and failing reads are not modelled.
- Node creation: ValidateCreate only refuses while a lock is held, which adds nothing to the rules for updates.
- NodeDeletion.ValidateDelete: the SHA-256 of the target sets is a parameter, and failing reads are not modelled.
- HandoffProtocol.NoLostUpdate: the retry loop is modelled as its read and update steps; an update that was stored although the client saw a timeout is not modelled.
- ConfigCollector.Cleanup: the hash and the revision of the rendered shared config are inputs. Creating and updating config resources is not modelled.
- Kubernetes client plumbing, webhook registration, warnings and error texts.
