# netbox-herald, verified model

netbox-herald mirrors Kubernetes objects into NetBox: Nodes become Devices or VirtualMachines,
the external addresses of LoadBalancer Services become IP addresses, and pod CIDRs become either
one Prefix per Node CIDR or one Aggregate per address family. It keeps no state of its own. It
finds its objects again by a managed tag and an external ID, and every change is a sequence of
separate API calls, each of which may fail before or after taking effect.

This project models two things and proves what they achieve.

**Supernets.** `Bits` and `Cidrs` model the folding of pod CIDRs into per-family bounds and the
smallest aligned block around them, on unbounded naturals with xor, bit length and masking. The
result is a least upper bound in the order of containment.

**The reconcile protocol.** From the calls up:

| module | content |
|---|---|
| `NetBox` | object tables, API calls, the replies they may get (`Lost(applied, id)` is an error return of a call that may have been carried out), and a reconcile as a machine that makes one call at a time |
| `ExternalIds` | external IDs and the string-prefix filter that tells owners apart |
| `Plans` | the decision tree of each `Reconcile`: spec and Kubernetes object to a list of operations |
| `Views` | the view, a map from (kind, external ID) to payload, and what each single call does to it |
| `Convergence`, `Scenarios` | whole reconciles and whole histories of them: exact convergence, make-before-break, failure transparency, confluence, mode switches, round trips, counting |
| `Progress`, `Outcomes`, `Ordering` | in terms of the Kubernetes objects, the spec and literal texts: what each reconcile leaves in NetBox, exactly when it can succeed, in which order it acts, and what it has done when it meets an error of its own |
| `NodeLifecycle`, `NodeTraces` | Nodes that appear, are synced, vanish and are removed by name: one reconcile after another, and then while all controllers run |
| `Interleaving`, `Concurrent` | all controllers at once, call by call, with other users and restarts; serializability carries the sequential results over |
| `Promises`, `Counterexamples` | statements of the documentation that hold only under a condition: the exact condition, and a state in which each fails |
| `Client`, `ConfigStore`, `ServiceController`, `PodCidrController`, `NodeController`, `ConfigController` | the code as it is written: loops and early returns against a mutable `NetBoxServer` and `Store`, each method proved to make exactly the calls of its plan |

The link between the two halves: an imperative method may call `NetBoxServer.Perform` only with the
next call of its plan, so what is proved of runs of plans holds of the code's own loops; the top
methods state the resulting view outright.

How to read the main predicates: `IsRun(db, th, rs)` says that `rs` are replies that the thread
`th` may get, call after call, from the tables `db`; the run may stop anywhere, so a statement
about all runs is one about every intermediate state and every error exit. `After` is the tables
and the thread at its end. A `Turn` is one reconcile of a history, successful or not; a `Task`
is a plan with the patch to the view that it amounts to. `Unique` says that an external ID occurs
at most once per table and tag. It is assumed where one reconcile is looked at alone and proved
for all reachable states in `Interleaving`.

## Assumptions

- Node names, Service names and namespaces contain no slash. Node UIDs are never used twice, and
  NetBox never gives out an object ID again.
- One manager is active and each controller runs one reconcile at a time
  (`internal/controller/podcidr_controller.go:391-401`,
  `internal/controller/service_controller.go:233-243`).
- A list call returns every object of the table that carries the tag. The code follows no next page.
- A call that fails takes effect, if at all, before it returns. Restarts fall between calls.
- Other users put no managed tag on an object, take none off, and do not change the external ID of
  an object that carries one. Uniqueness, the order of tag and use, and the restriction to tagged
  objects hold even if they delete or otherwise edit Herald's objects at any moment (`Possible`).
  The results about what is reached in the end assume that they leave Herald's objects alone
  (`Legal`). Nobody else creates or deletes the managed tag, and nobody deletes the external-ID custom field.
- At the start of the results about all controllers at once, the Store is empty and no reconcile
  runs. Herald may have run before: tags and managed objects may exist, as long as tags and external
  IDs are unique.
- All spec changes are allowed, including the tag slug and the NetBox instance. Results about a
  history of reconciles are for one instance and slug.

## Where documentation and code disagree

The model follows the code.

- `docs/architecture.md:34-36` says that a disabled controller makes no NetBox calls. The exact
  conditions, with the count call of the status update, are those of the `Promises.…SilentIff` rows:
  with retention a Service or Node that is gone is still listed and deleted, Prefix mode always looks
  for Aggregates, and a disabled Cluster is always looked for.
- `docs/architecture.md:91-95` says that `retainOnDisable` leaves what Herald created untouched. See
  the `Promises.…RetainIff` rows and `Promises.RetainUntouchedIff`.
- `docs/architecture.md:86-89` says that disabling deletes every object of the type. See
  `Promises.ServicesDisableIff`, `Promises.NodesDisableIff` and `Promises.DisableDeletesIff`.
- `docs/resources/pod-cidrs.md:18-20` says that switching to Aggregate removes any per-node Prefix.
  Those of Nodes that are gone stay, see `Promises.SwitchClearsIff`.
- `docs/resources/nodes.md:21` calls `siteName` optional for Devices. A sync looks the Site up
  always, and can succeed only if a Site of that name exists, see `Promises.DeviceSyncConsults`,
  `Outcomes.NodePossibleIff` and `Counterexamples.EmptySiteFails`.
- `docs/architecture.md:74-76` says that look-up is by the custom field. The code lists by tag and
  compares external IDs itself, which is what the model does.

## Model

| member | source | states |
|---|---|---|
| Bits.HighestDifferingBit | internal/controller/podcidr_controller.go:331-334 | the bit length of min xor max is the least k at which the two agree once their k low bits are dropped, for all naturals |
| Bits.AndMask | internal/controller/podcidr_controller.go:336-339 | masking with a CIDR mask clears exactly the host bits |
| Cidrs.EncloseExact | internal/controller/podcidr_controller.go:333-339 | for bounds that fit the address width, the clamp to zero never acts and masking the lower or the upper bound gives the same network |
| Cidrs.EncloseBounds | internal/controller/podcidr_controller.go:330-342 | the body of the second loop: prefix length and bit length of the difference add up to the address width |
| Cidrs.EncloseLeast | internal/controller/podcidr_controller.go:331-339 | any aligned block that holds both bounds holds the computed block |
| Cidrs.SpreadTight | internal/controller/podcidr_controller.go:298-327 | the first loop succeeds exactly when every text parses, opens exactly the families present, and its bounds are attained by input blocks and exceeded by none |
| Cidrs.SpreadFits | internal/controller/podcidr_controller.go:300-338 | the bounds always fit the address width, so the address bytes never overflow |
| Cidrs.SupernetsLeast | internal/controller/podcidr_controller.go:290-344 | least upper bound: per family present, the result is a valid block, contains every input block, and lies in every valid block that does |
| Cidrs.SupernetIs | internal/controller/podcidr_controller.go:290-344 | a block is the result for a family if and only if it is the least block above the family's inputs |
| Cidrs.SupernetsFromSet | internal/controller/podcidr_controller.go:298-343 | order, repetition and the other family's blocks do not matter |
| Cidrs.SupernetsCompose | internal/controller/podcidr_controller.go:298-343 | the supernet of a concatenation is the supernet of the two partial supernets |
| Cidrs.WidenBounds | internal/controller/podcidr_controller.go:317-326 | one round of the first loop: whatever blocks the bounds were tight for, they are then tight for those and the new one, and no family but the block's is touched |
| Cidrs.ComputeSupernets | internal/controller/podcidr_controller.go:293-344 | both loops: the answer is the least block per family, or the error of the first text that does not parse |
| ExternalIds.FilterExact | internal/netbox/podcidr.go:104-122 | the prefix filter selects an ID exactly when it was built for that owner, even when one name is a prefix of another or the CIDR has slashes |
| ExternalIds.OwnedIdInjective | internal/netbox/service.go:37-43 | external IDs are injective in the owner and in the address or CIDR |
| Views.VictimsExact | internal/netbox/podcidr.go:104-138 | what the loops over a listing pick: tagged, matching, distinct objects; for an owner, and by a unique external ID, all of them; and none only if there is none |
| Views.StepMoves | internal/netbox/podcidr.go:63-97 | one API call of any reconcile, however it ends, keeps external IDs unique and what the reconcile has found true, and moves the view by at most one key |
| Views.StepEffect | internal/netbox/service.go:75-150 | one successful call leaves unchanged the view that the rest of the reconcile is heading for |
| Views.RunEffect | internal/netbox/podcidr.go:63-138 | refinement: along every run the calls still to be made have the effect, on the view reached, that all had on the view at the start |
| Views.RunBetween | internal/controller/podcidr_controller.go:153-190 | in every half-way state each key is where it was or where the reconcile wants it |
| Views.RunKeeps | internal/netbox/service.go:75-109 | an object that no removal of the plan can hit keeps its NetBox ID through every state of the run |
| Views.RunQuiet | internal/netbox/podcidr.go:63-138 | from a settled view no call of a run creates or deletes anything |
| Plans.ServiceRealizes | internal/controller/service_controller.go:70-178 | on every view, a Service plan without an error in it has the effect of its patch, and moves keys only toward the patch |
| Plans.PrefixRealizes | internal/controller/podcidr_controller.go:96-190 | the same for a Prefix-mode plan |
| Plans.AggregateRealizes | internal/controller/podcidr_controller.go:209-276 | the same for an Aggregate-mode plan |
| Plans.NodeRealizes | internal/controller/node_controller.go:91-147 | the same for the plan of a Node that is not gone |
| Outcomes.ExternalIdField | internal/netbox/cluster.go:160-173 | the external ID read is the text in the custom field netbox_herald_external_id, and there is none otherwise |
| Outcomes.WritesMarked | internal/controller/heraldconfig_controller.go:47-54 | every object created or updated carries exactly the configured slug, or the default one, and an external ID as its only custom field |
| Outcomes.ServiceSucceeded | internal/controller/service_controller.go:84-192 | what a successful Service reconcile leaves, case by case: at namespace/name/ip the address ip/32 or ip/128 with the Service's description for every external IP and no other; none; or all as it was; and nothing else changed |
| Outcomes.ServicePossibleIff | internal/controller/service_controller.go:84-178 | a Service reconcile can succeed if and only if the Service can be read and, when it is to be synced, every entry with an IP has a valid one |
| Outcomes.PrefixSucceeded | internal/controller/podcidr_controller.go:96-190 | what a successful Prefix-mode reconcile leaves: no Aggregate, and at node/cidr a Prefix with that CIDR and the Node's description for every pod CIDR and no other; or none; or all as it was; and nothing else changed |
| Outcomes.PrefixCount | internal/controller/podcidr_controller.go:161-189 | a synced Node has as many Prefixes as distinct pod CIDRs |
| Outcomes.PrefixPossibleIff | internal/controller/podcidr_controller.go:96-190 | a Prefix-mode reconcile can succeed if and only if the Node can be read |
| Outcomes.AggregateSucceeded | internal/controller/podcidr_controller.go:209-276 | what a successful Aggregate-mode reconcile leaves: per family present the least block above the Nodes' pod CIDRs, with the RIR of the spec and the family's description; no live Node's Prefix; and nothing else changed |
| Outcomes.AggregatePossibleIff | internal/controller/podcidr_controller.go:222-275 | an enabled Aggregate sync can succeed if and only if the Nodes can be listed, every pod CIDR is valid and, when there is any, the RIR exists |
| Outcomes.NodeSucceeded | internal/controller/node_controller.go:89-147 | what a successful reconcile of a live Node leaves: one Device that refers to type, role and Site, or one VirtualMachine that refers to its cluster, by default the synced one, and its platform if named; or that object is gone; or all as it was |
| Outcomes.NodeSyncConsults | internal/netbox/node.go:230-255 | a successful Node sync has looked up exactly what its object refers to, in order |
| Outcomes.NodePossibleIff | internal/controller/node_controller.go:75-147 | a Node reconcile can succeed if and only if the Node can be read and, when it is there and sync is on, the mapping is one of the two and all its object refers to exists |
| Outcomes.ClusterSucceeded | internal/netbox/cluster.go:58-115 | a successful Cluster reconcile keeps one object with name, type, group and Site, or removes it |
| Outcomes.ClusterPossibleIff | internal/netbox/cluster.go:58-137 | a Cluster reconcile can succeed if and only if sync is off or all its object refers to exists |
| Progress.CanSucceedIff | internal/netbox/podcidr.go:225-265 | any plan can be carried out if and only if it has no error of its own and every reference object it looks up exists |
| Ordering.TagBeforeWrite | internal/controller/podcidr_controller.go:153-173 | in every run of every resource reconcile a call that found or created the managed tag comes before any write |
| Ordering.PrefixesAfterAggregates | internal/controller/podcidr_controller.go:99-105 | in every state of a Prefix-mode reconcile no Prefix has been written or both Aggregates are gone |
| Ordering.AggregatesAfterPrefixes | internal/controller/podcidr_controller.go:227-235 | in every state of an Aggregate-mode reconcile no Aggregate has been written or no live Node has a Prefix |
| Ordering.ServiceError | internal/controller/service_controller.go:141-150 | a Service sync that meets an invalid address has put in place the addresses before it, removed nothing and changed nothing else |
| Ordering.PrefixError | internal/controller/podcidr_controller.go:99-117 | a Prefix-mode reconcile whose Node cannot be read has removed the Aggregates and changed nothing else |
| Ordering.AggregateError | internal/controller/podcidr_controller.go:222-245 | an Aggregate sync that meets an invalid pod CIDR has cleared the live Nodes' Prefixes and changed nothing else; one that cannot list the Nodes has changed nothing |
| Ordering.NodeError | internal/controller/node_controller.go:76-136 | a Node reconcile that cannot read the Node, or has no valid mapping, has changed no object |
| Convergence.SyncIsReplacement | internal/controller/service_controller.go:132-178 | ensure-then-prune has the effect of deleting all the owner has and then creating all that is desired |
| Convergence.SyncConverges | internal/controller/podcidr_controller.go:153-190 | after a success the owner has exactly the desired objects and payloads, all other owners are unchanged, survivors keep their NetBox IDs |
| Convergence.MakeBeforeBreak | internal/controller/podcidr_controller.go:162-188 | in every state and at every error exit desired objects stay, nothing is removed before all desired objects exist, and an owner never drops to zero |
| Scenarios.ServiceMakesFirst | internal/controller/service_controller.go:132-178 | the same for a Service sync that an invalid address may cut short: then nothing at all has been removed |
| Convergence.TurnEffect | internal/controller/service_controller.go:70-126 | a reconcile cut anywhere leaves each key old or as wanted, and a successful one applies its patch exactly |
| Convergence.Settles | internal/controller/service_controller.go:70-126 | once a task has succeeded its keys stay as it puts them through any further cut, failed or successful reconciles of tasks that agree with it |
| Convergence.Confluence | internal/controller/podcidr_controller.go:96-148 | two histories of agreeing tasks, in any order with repeats and failures, in which every key at stake is settled by a task that succeeds in both, end in the same view; tasks that fail for good are no obstacle |
| Convergence.FailureTransparency | internal/controller/service_controller.go:132-178 | any number of cut or failed attempts with a success among them give the view of one clean run, and a further run creates and deletes nothing |
| Scenarios.ServicesConfluent | internal/controller/service_controller.go:70-126 | confluence for any set of Services, live or deleted, with failures of NetBox and failed Kubernetes reads in between |
| Scenarios.ServicesSettle | internal/controller/service_controller.go:97-126 | every Service then has exactly its addresses, whatever was there before |
| Scenarios.ServicesRoundTrip | internal/controller/service_controller.go:97-125 | disabling and re-enabling restores the view of every live owner; with retention every managed object keeps its NetBox ID and none comes or goes |
| Scenarios.PrefixesConfluent | internal/controller/podcidr_controller.go:96-148 | confluence for any set of Nodes in Prefix mode, with the same failures |
| Scenarios.PrefixesRoundTrip | internal/controller/podcidr_controller.go:119-147 | the round trip in Prefix mode, with the same IDs |
| Scenarios.NodesConfluent | internal/controller/node_controller.go:91-147 | confluence for live Nodes, whose UIDs differ |
| Scenarios.AllCidrsExact | internal/controller/podcidr_controller.go:237-240 | the Aggregates are computed from the pod CIDRs of the listed Nodes and nothing else |
| Scenarios.AggregatesExact | internal/controller/podcidr_controller.go:222-275 | after a success each family has its one Aggregate exactly if some live Node has a CIDR in it, that is the least block above them all, no live Node owns a Prefix, and nothing else has changed |
| Scenarios.ModeSwitch | internal/controller/podcidr_controller.go:99-105 | after any earlier history of modes and switches, one success in the current mode gives a live Node and the Aggregates the view of a fresh NetBox |
| Scenarios.ManagedCount | internal/netbox/service.go:189-202 | from no tagged addresses, once all live Services have synced and all dead ones are removed, the count is the sum of the live load balancers' distinct non-empty IPs, whatever text other Services have as ingress |
| NodeLifecycle.LifeInv | internal/controller/node_controller.go:63-147 | in every life of Nodes each tagged Device and VirtualMachine bears the name and the UID of one known Node |
| NodeLifecycle.DeletionByNameExact | internal/controller/node_controller.go:162-167 | after any mapping switches, disables and failures, deletion by name removes exactly the objects created under the dead Node's UID |
| NodeTraces.DeletionByNameInterleaved | internal/controller/node_controller.go:162-167 | the same while all controllers, other users and restarts interleave with it and Nodes come and go in the middle of a reconcile |
| Interleaving.StepCore | internal/controller/heraldconfig_controller.go:102-204 | every action of every controller, every deletion or edit by other users and every restart keeps what safety needs |
| Interleaving.StepInv | internal/controller/heraldconfig_controller.go:102-204 | as long as other users leave Herald's objects alone, every action also keeps what each running reconcile has found true |
| Interleaving.AtMostOneObject | internal/netbox/node.go:57-106 | in every reachable interleaved state each table has at most one object per managed tag and external ID, though Ensure is a find followed by a create and users may delete its object in between |
| Interleaving.TagBeforeUse | internal/controller/heraldconfig_controller.go:139-147 | what the Store or a running reconcile holds names an instance that has that tag and the external-ID custom field; resource controllers never create a tag; each slug has at most one |
| Interleaving.FailureClosesGate | internal/controller/heraldconfig_controller.go:110-147 | once a HeraldConfig reconcile has failed, the HeraldConfig is gone or the manager has restarted, the Store is empty and no resource reconcile starts until a whole bootstrap has succeeded |
| Interleaving.OnlyTaggedTouched | internal/netbox/podcidr.go:104-173 | in every reachable state the next call of any controller changes or deletes only an object that then carries the managed tag |
| Interleaving.Serializable | internal/controller/podcidr_controller.go:391-401 | while a reconcile runs among others, its tables go through exactly its own sequential run |
| Concurrent.HistoryOf | internal/controller/service_controller.go:233-243 | each interleaving, seen from one controller's tables, is a history of that controller's reconciles with the same successes |
| Concurrent.ConcurrentSettles | internal/controller/service_controller.go:70-126 | settling under every interleaving, with failures, restarts and other users |
| Concurrent.ConcurrentConfluence | internal/controller/podcidr_controller.go:75-148 | confluence under every interleaving, with reconciles among them that fail for good, as when Kubernetes does not answer |
| Promises.ServiceSilentIff | internal/controller/service_controller.go:84-114 | a disabled Service reconcile, status update included, makes no call if and only if the Service cannot be read, or is there and retained and the status update counts nothing |
| Promises.NodeSilentIff | internal/controller/node_controller.go:76-103 | the same for Nodes |
| Promises.PodCidrSilentIff | internal/controller/podcidr_controller.go:75-136 | a disabled pod CIDR reconcile makes no call if and only if the mode is Aggregate, objects are retained and the status update counts nothing |
| Promises.ClusterNeverSilent | internal/controller/cluster_controller.go:89-92 | a disabled Cluster reconcile that gets as far as its sync always makes a call |
| Counterexamples.DisabledStillCalls | internal/controller/podcidr_controller.go:99-105 | paused reconciles of a gone Service, a gone Node, a live Node's pod CIDRs and the Cluster that make calls, and the count for a live Service |
| Progress.ConsultsAll | internal/netbox/refs.go:34-171 | a run that succeeds has looked up every name of its plan, once each and in order |
| Promises.DeviceSyncConsults | internal/netbox/node.go:63-74 | a successful Device sync has looked up type, role and Site, the Site even under the empty name |
| Counterexamples.EmptySiteFails | internal/netbox/node.go:71-74 | with one Site in NetBox, a Device sync that names it can succeed and one that leaves the name empty cannot, in any run |
| Promises.RetainUntouchedIff | internal/controller/podcidr_controller.go:96-136 | a paused pod CIDR reconcile that succeeds, of a Node live or gone, changes nothing if and only if the mode is Aggregate, or there is no Aggregate and the Node is live or has no Prefix |
| Promises.RetainUntouchedThroughout | internal/controller/podcidr_controller.go:96-136 | under that condition, or if the Node cannot be read and there is no Aggregate, nothing changes in any state of any run, cut or failed |
| Counterexamples.RetainDeletesAggregate | internal/controller/podcidr_controller.go:99-105 | a state in which pausing in Prefix mode deletes an Aggregate |
| Counterexamples.RetainDeletesPrefix | internal/controller/podcidr_controller.go:107-115 | a state without Aggregates in which pausing deletes the Prefix of a Node that is gone |
| Promises.ServiceRetainIff | internal/controller/service_controller.go:84-114 | a paused Service reconcile that succeeds changes nothing if and only if the Service is there or has no address |
| Promises.ServiceRetainThroughout | internal/controller/service_controller.go:84-114 | under that condition, or if the Service cannot be read, nothing changes in any state of any run |
| Counterexamples.RetainDeletesAddress | internal/controller/service_controller.go:84-93 | a state in which pausing deletes the address of a Service that is gone |
| Promises.NodeRetainIff | internal/controller/node_controller.go:76-103 | a paused Node reconcile that succeeds changes no table if and only if the Node is there or no object of either table bears its name |
| Promises.NodeRetainThroughout | internal/controller/node_controller.go:76-103 | under that condition, or if the Node cannot be read, no table changes in any state of any run |
| Counterexamples.RetainDeletesDevice | internal/controller/node_controller.go:76-85 | a state in which pausing deletes the Device of a Node that is gone |
| Promises.ServicesDisableIff | internal/controller/service_controller.go:97-114 | after the disabled reconciles of a set of Services have succeeded no address is left if and only if each belonged to one of them |
| Counterexamples.DisableLeavesGoneAddress | internal/controller/service_controller.go:249-261 | a state in which the address of a gone Service stays though every live one has been reconciled |
| Promises.DisableDeletesIff | internal/controller/podcidr_controller.go:96-148 | after the disabled reconciles of a set of Nodes no Prefix is left if and only if the mode is Prefix and each belonged to one of them, or there was none; no Aggregate if and only if all were Herald's two and there was a reconcile; per Node, its Prefixes are gone if and only if the mode is Prefix or it had none |
| Counterexamples.DisableLeavesPrefix | internal/controller/podcidr_controller.go:209-220 | a state in which disabling in Aggregate mode leaves a live Node's Prefix |
| Counterexamples.DisableLeavesGonePrefix | internal/controller/podcidr_controller.go:407-419 | a state in which disabling in Prefix mode leaves the Prefix of a gone Node though every live one has been reconciled |
| Promises.NodesDisableIff | internal/controller/node_controller.go:91-103 | after the disabled reconciles of a set of live Nodes no Device and no VirtualMachine is left if and only if each was in the current mapping's table under one of their UIDs |
| Counterexamples.DisableLeavesGoneDevice | internal/controller/node_controller.go:230-242 | a state in which the Device of a gone Node stays |
| Promises.SwitchClearsIff | internal/controller/podcidr_controller.go:227-235 | a successful Aggregate sync leaves no Prefix of a name if and only if a live Node bears the name or there was none |
| Counterexamples.SwitchLeavesPrefix | internal/controller/podcidr_controller.go:227-235 | a state in which the Prefix of a Node that is gone stays |
| Promises.NodeSyncExact | internal/controller/node_controller.go:104-136 | a successful Node sync writes one object and leaves that of the other mapping as it is |
| Promises.NodeDisableDeletesIff | internal/controller/node_controller.go:91-102 | disabling removes all objects under a live Node's UID if and only if there is none in the other mapping's table |
| Counterexamples.NodeDisableLeavesObject | internal/controller/node_controller.go:151-156 | a state in which the object of the earlier mapping stays |
| Promises.NodeDeleteIff | internal/netbox/node.go:127-141 | deletion by name leaves no object of the name if and only if at most one bore it, in each of the two tables |
| Counterexamples.ReusedNameLeavesObject | internal/netbox/node.go:127-141 | a state with two Devices of one name in which deletion by name leaves one |
| Client.NetBoxServer.Perform | internal/netbox/podcidr.go:90-96 | one API call: the tables change as the call and its reply say, and the plan being followed advances |
| Client.EnsureManagedTag | internal/netbox/tags.go:31-61 | list the tags, create the tag only if it is not among them: exactly the calls of an EnsureTag operation, and an error return for every lost call |
| Client.SearchById | internal/netbox/podcidr.go:159-173 | the search loop finds the first object with the external ID, or nothing if none has it |
| Client.EnsureObject | internal/netbox/node.go:57-106 | find, look up the references in order, then update or create: exactly the calls of an Ensure operation |
| Client.DeleteFirst | internal/netbox/podcidr.go:270-286 | delete the first match, succeed without a call if there is none |
| Client.SelectOwned | internal/netbox/service.go:116-134 | the grouping loop keeps exactly the owner's objects, in order |
| Client.PruneOwned | internal/controller/podcidr_controller.go:175-188 | list, keep what is desired, delete the rest one by one, stop at the first error |
| ServiceController.SyncServiceAddresses | internal/controller/service_controller.go:132-178 | tag, ensure each entry that has an IP, stop at an invalid one, prune: exactly the calls of the Service plan, success and failure as the plan's |
| ServiceController.ReconcileService | internal/controller/service_controller.go:70-126 | nothing without a Store; otherwise a run of the plan, uniqueness kept, each key old or as wanted, and on success the outcome of Outcomes.ServiceSucceeded |
| PodCidrController.SyncNodePrefixes | internal/controller/podcidr_controller.go:153-190 | exactly the calls of ensure-then-prune for the Node's pod CIDRs, success and failure as theirs |
| PodCidrController.ReconcilePrefixForNode | internal/controller/podcidr_controller.go:96-148 | Aggregates first, then the decision tree for the Node |
| PodCidrController.SyncAggregates | internal/controller/podcidr_controller.go:209-276 | exactly the calls of the Aggregate-mode plan, with the supernets computed in place, success and failure as the plan's |
| PodCidrController.ReconcilePodCidrs | internal/controller/podcidr_controller.go:75-92 | dispatch by representation; run, uniqueness and, on success, the outcome of Outcomes.PrefixSucceeded or Outcomes.AggregateSucceeded |
| NodeController.ReconcileNode | internal/controller/node_controller.go:63-147 | the Node decision tree: by name when gone, by UID otherwise; for a Node that is not gone, on success the outcome of Outcomes.NodeSucceeded |
| NodeController.DeleteNodeByName | internal/controller/node_controller.go:162-167 | Device first, then VirtualMachine, stopping at the first error |
| ConfigStore.Store.Set | internal/config/store.go:48-53 | spec and client are replaced together |
| ConfigController.ReconcileConfig | internal/controller/heraldconfig_controller.go:102-204 | the Store gets the new pair exactly when tag and custom field are ensured, is cleared on every failure and on deletion, and is kept only when the HeraldConfig cannot be read; success means that the tag was found or created and a call for the custom field succeeded after that |

## Left out

- HTTP, TLS, tokens, Secrets and the version check (`internal/netbox/client.go`, `internal/netbox/config.go`, `internal/netbox/version.go`): `ReconcileConfig` takes their joint outcome as a parameter.
- Text of addresses: parsing and printing are library code. A CIDR comes with what its text parses to; IPv4-mapped IPv6 text is excluded. A Service carries, for each text that is an IP, which family it is.
- Reference look-ups (`internal/netbox/refs.go`) and the custom-field bootstrap are single calls that succeed or fail; only the `…PossibleIff` results say which reference objects exist. Payloads hold references by table and name.
- The search through the tag list is one reply, found or not, which `AdmissibleTag` ties to the tags that exist.
- An update writes tags and custom fields as Herald sends them; custom fields of other origin that NetBox may keep are not modelled. The payload is replaced as a whole: that NetBox may keep an old platform, cluster group or Site scope when an update leaves it out (`internal/netbox/node.go:250-256`, `internal/netbox/cluster.go:77-93`) is not modelled.
- Cluster sync appears as a plan, with its outcome, and among the controllers that interleave; it has no imperative method.
- The count call of the status update is part of the plans of the `Promises.…SilentIff` results only; the imperative methods end before the status update.
- Status conditions, timestamps, requeueing, logging and the 32-bit result of the count: a reconcile's outcome is success or error. Nothing is said about when or whether a failed sync is tried again.
- Ignoring HeraldConfig objects of another name, and reads of the HeraldConfig by the status updates.
- The slash-free names are assumed, not enforced by a type; Kubernetes validates them.
- Scenarios.ModeSwitch: restricted to live Nodes and Aggregates, because Prefixes of dead Nodes can stay (`Promises.SwitchClearsIff`).
- Concurrent.ConcurrentSettles: covers Service and pod CIDR reconciles and those of Nodes that are not gone. Deletion by name has no patch to the view of its own; `NodeTraces.DeletionByNameInterleaved` is its result under every interleaving.
- Interleaving.OnlyTaggedTouched: relies on other users not taking the managed tag off an object between a list call and the call that follows it; an object untagged in that gap would be updated or deleted by its ID.
- NodeController.ReconcileNode: states the resulting view only for a Node that is not gone; for a Node that is gone the view is in `NodeLifecycle.DeletionByNameExact`, because deletion by name is exact only along a whole life.
- Promises.DisableDeletesIff: the history contains only reconciles of the Nodes in question; a delete reconcile of a gone Node that fails half-way in the middle of it is not covered. The same holds of the other two results on disabling.
- The order in which the second loop of `computeSupernets` visits its map is left open, as Go leaves it.
