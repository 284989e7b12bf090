# Cluster registry controller: verified model

A cluster group is a set of Kubernetes clusters. Each runs a controller that writes only its own
cluster and reads its peers. This project models the logic of that controller in Dafny and proves
what it promises over every input, every history and every schedule.

`dafny verify dfyconfig.toml` checks the whole project.

## The parts

| file | module | what it holds |
|---|---|---|
| Objects.dfy | Objects | objects, metadata keys, owners, stores |
| ClusterApi.dfy | ClusterApi | the Cluster resource |
| Gvk.dfy | Gvk | printing and parsing kinds |
| Rules.dfy | Rules | selecting objects by rules, merging the mutations of the selected rules |
| SyncReconciler.dfy | Sync | one sync controller: mutation, the create/update/delete decisions, one reconcile |
| Copies.dfy | Copies | what a copy carries, and how it leads back to its source |
| Protocol.dfy | Protocol | the group as a transition system with users, liveness flips and sync steps in any order |
| Safety.dfy | Safety | conservation of natives, provenance, draining deletions, authority of owners |
| Convergence.dfy | Convergence | a full mesh converges with bounded work, and heals after disturbances, up to status |
| Gossip.dfy | Gossip | reads in pairs on a board of statuses: which schedules keep them apart |
| Statuses.dfy | Statuses | when statuses stay, and when syncing them brings them into line |
| Instances.dfy | Instances | concrete runs for the failures that the theorems delimit |
| Registry.dfy | Registry | the features and controllers of one managed cluster |
| FeatureGating.dfy | FeatureGating | the incremental registry equals a declarative filter |
| RuleReconciler.dfy | RuleReconciler | installing a rule into every managed cluster |
| Manager.dfy | Manager | the connected clusters and their credentials |
| Conflicts.dfy | Conflicts | conflict flags kept right by a self-triggering queue |
| Conditions.dfy | Conditions | condition histories, events, storing and reading back |
| ClusterStatus.dfy | ClusterStatus | what the reconcilers store of their passes, and what it says after any history |
| Agreement.dfy | Agreement | the pairwise sync check and what it means for a group |

Imperative code is a class or a method with loops, proved against a function on values; the
theorems are about those functions and about whole histories. Iteration over a Go map is a loop
that picks any remaining key, so every result holds for every iteration order.

## Assumptions

- `ReconcileResource` is a library call. Its contract: an absent target is created exactly when
  creation is permitted; a present one is replaced by the desired object exactly when an update is
  permitted. The status is a subresource that neither writes.
- One reconcile is atomic. Requests are over-approximated: any key may be handled at any time.
- The overlay patch engine, the answers of the rate limiter, the existing namespaces, the liveness
  answers and the clock are parameters.
- Users do not forge the ownership annotation. Convergence also covers users who change copies.
- Cluster IDs are not empty, and a cluster is never its own peer.

## What the proofs found in the code

- The status write after a reconcile is not guarded by the update decision: an offer that is refused
  still writes its status. `Safety.StatusExact` says exactly what a step does to a status,
  `Safety.NativeStatusExact` when a native is affected, and `Instances.NativeStatusLost` is a case.
- Under a rule that syncs statuses they are therefore gossiped, whoever owns the object. Every fair
  run of a converged mesh brings them into line if and only if no cluster that holds the object is
  offered two different statuses by others: `Statuses.StatusesSettleExactly`. Where every cluster
  holds the object, this means that all offered statuses agree or that there are at most two clusters:
  `Statuses.OffersAgreeMeans`. `Instances.StatusesApart` is a mesh that need not settle;
  `Instances.SourcesSettle` is an ordinary rule whose copies do not pass statuses on, so that it does.
- A cluster can end up with a copy marked as its own, by an update and never by a create.
  `Safety.SelfOwnedExactly` says exactly when; `Instances.OwnCopyReached` is a run from natives only.
- While a copy's owner is not considered alive, reading from a holder and from a cluster without
  the object creates and deletes the copy forever. `Safety.DeadOwnerCycle` says exactly when;
  `Instances.FlappingReached` is a run from natives only.
- A controller that has ever renamed an object no longer deletes copies it did not rename, nor
  copies of which only the namespace changed. `Copies.RenamedCopyDeleted` and
  `Copies.RenamedLifecycle` give the exact condition, `Instances.MovedCopyStays` a case.
- Changing a feature under a known identifier does not recheck active controllers:
  `FeatureGating.FeatureExactly` and `FeatureGating.RelabelledFeatureLeavesActive`.
- A disabled Cluster resource can be an unnoticed rival, because the watch that queues local resources
  on a creation finds them through a table by cluster ID. The flags end up wrong exactly when the new
  resource is disabled, claims the local ID and is listed behind an enabled one without a rival:
  `Conflicts.CreationSettlesRight`, with the case `Conflicts.DisabledRivalUnnoticed`. A refresh interval,
  which is off by default, makes resources look again later.
- The ready condition is computed from the error of reading the resource, not from that of the pass,
  and the status of a peer is stored only after an error. So a peer shows a ready condition, and a
  true one, if and only if connecting to it has failed: `ClusterStatus.PeerReadyMeansFailed`.
- For the same reason the state for missing auth info is never stored: `ClusterStatus.StateHistory`.
- A pass over a healthy peer announces status changes but does not store them, so that the next pass
  announces them again: `ClusterStatus.StoredEvents`.
- An error in matching an object is dropped, because the unmatched answer is tested first:
  `Sync.SyncReconciler.Reconcile` answers with an error only for ambiguous deletions and failed
  mutations.

## Model

| member | source | states |
|---|---|---|
| Gvk.ParsePrinted | pkg/util/resources.go:24-44 | parsing a printed kind gives it back if and only if the kind has no '.' and the group no '/' |
| Gvk.PrintParsed | pkg/util/resources.go:28-44 | printing a parse gives the string back; a string fails to parse if and only if it has no '.', or no '/' behind the first '.' |
| Rules.MatchOne | api/v1alpha1/resourcesyncrule_match.go:31-97 | the sequence of checks computes the verdict that Rules.EntryMeaning characterises: name, namespace, labels with early exit, annotations without |
| Rules.EntryMeaning | api/v1alpha1/resourcesyncrule_match.go:31-97 | from the fields alone: an entry matches if and only if name and namespaces allow the object, its labels are free or chosen by a valid selector in front of which all are valid and choose nothing, and its annotations are free or some selector among valid ones chooses them; it fails if and only if an invalid selector is reached |
| Rules.OperatorMeaning | api/v1alpha1/resourcesyncrule_match.go:63-67 | In and NotIn, and Exists and DoesNotExist, decide oppositely on every label map, and a key exists if and only if some value of it is chosen |
| Rules.SelectorMeaning | api/v1alpha1/resourcesyncrule_match.go:81-90 | a wanted label is a requirement with one value; a selector is valid if and only if each operator is known and has values just where it compares them |
| Rules.MatchRule | api/v1alpha1/resourcesyncrule_match.go:153-167 | the first match entry that matches or fails decides; no entries match everything |
| Rules.RuleMeaning | api/v1alpha1/resourcesyncrule_match.go:158-166 | the verdict of a rule's entries is that of the entry in front of which all are unmatched |
| Rules.MatchSpec | api/v1alpha1/resourcesyncrule_match.go:129-147 | returns the selected rules in rule order, nothing for another kind, an error if any rule fails |
| Rules.SpecMeaning | api/v1alpha1/resourcesyncrule_match.go:129-147 | an error if and only if a rule of the object's kind fails; otherwise exactly the matching rules of its kind |
| Rules.FirstSelectedMeaning | api/v1alpha1/resourcesyncrule_match.go:58-75 | an invalid selector in front of a match is an error, one behind it is never looked at |
| Rules.GetMutatedGvk | api/v1alpha1/resourcesyncrule_match.go:169-189 | the loop reports whether any rule changes the kind, and the changed kind |
| Rules.MutatedGvkFields | api/v1alpha1/resourcesyncrule_match.go:172-186 | field by field the last rule that names the field wins, else the source's value stays |
| Rules.GvkCompose | api/v1alpha1/resourcesyncrule_match.go:169-189 | mutating by a concatenation is mutating by one list, then by the other |
| Rules.GvkDrop | api/v1alpha1/resourcesyncrule_match.go:169-189 | rules without a kind mutation can be dropped anywhere |
| Rules.DeleteTargetsWrittenKind | controllers/sync_reconciler.go:108 | the kind the delete path uses, from all rules, is the kind written, from the matched rules, when every kind-changing rule matched |
| Rules.MergeMutations | api/v1alpha1/resourcesyncrule_match.go:191-221 | the loops merge additions with the last one winning, and collect all removals |
| Rules.MergedMetadata | controllers/sync_reconciler.go:482-501 | a key survives if and only if no rule removes it and the source has it or a rule adds it; its value is the last added one, else the source's |
| Sync.GetOverrides | api/v1alpha1/resourcesyncrule_match.go:223-230 | the loop concatenates the overrides of the rules in order |
| Sync.GetSyncStatus | api/v1alpha1/resourcesyncrule_match.go:232-240 | true exactly when some rule asks for the status |
| Sync.AddAll | controllers/sync_reconciler.go:482-484 | the loop overlays the additions on the source map |
| Sync.RemoveAll | controllers/sync_reconciler.go:486-488 | the loop deletes exactly the listed keys |
| Sync.StripBookkeeping | controllers/sync_reconciler.go:519-522 | exactly the four bookkeeping annotations are deleted |
| Sync.MutateMetadata | controllers/sync_reconciler.go:469-533 | the in-place edits produce the mutated object that Copies.WrittenAnnotation and Copies.WrittenLabel characterise: merged metadata, claimed ownership, kind, original kind, cleared fields |
| Sync.SyncReconciler.MutateObject | controllers/sync_reconciler.go:469-604 | the desired object including overrides and back-references, or an error; the sticky rename flags are set exactly by renames |
| Sync.SyncReconciler.DeleteResource | controllers/sync_reconciler.go:644-707 | the store after a delete request, through the key or through the renamed-copy lookup; an error exactly when several candidates claim the source |
| Sync.SyncReconciler.WriteObject | controllers/sync_reconciler.go:239-320 | the store after the namespace check, the rate limit, the create or update, and the status write; a blocked object is tried again later |
| Sync.BlockedWritesNothing | controllers/sync_reconciler.go:239-274 | a rate-limited object, or one whose namespace is missing, leaves the whole store as it is |
| Sync.SyncReconciler.Reconcile | controllers/sync_reconciler.go:208-327 | the store and rename flags after one reconcile; an error if and only if a deletion is ambiguous or a mutation fails; a retry, with the store as it was, if and only if the limiter refuses or the namespace of the desired object is missing; so a matching error is dropped |
| Copies.WrittenAnnotation | controllers/sync_reconciler.go:477-523 | every annotation of a copy: bookkeeping keys gone, owner as left by the rules or the peer, original kind on a kind change, all else merged |
| Copies.WrittenLabel | controllers/sync_reconciler.go:490-509 | every label of a copy, from the rules alone: the owner is the one they leave or else the peer, and every other key is merged, the last rule that adds it winning and a removal winning over all |
| Copies.OverridesInOrder | api/v1alpha1/resourcesyncrule_match.go:223-230 | the overrides of two rule lists are those of the first, then those of the second |
| Copies.OverridesSee | controllers/sync_reconciler.go:535-563 | overrides get the mutated object, the cluster that owns its source or else the peer, and the local cluster, and fail if and only if one of the two is unknown or they fail themselves |
| Copies.OriginalKindRecovered | controllers/sync_reconciler.go:511-514 | the original kind can be parsed back from the annotation if and only if its text is unambiguous |
| Copies.RenameRoundTrip | controllers/sync_reconciler.go:584-601 | for rules and overrides that leave the reference labels alone, a local event about the written copy, however renamed, maps to the source if and only if the source carries no foreign reference for a part of its key that was kept |
| Copies.UnrenamedRoundTrip | controllers/sync_reconciler.go:802-820 | without overrides the source is found again if and only if it carries no foreign reference itself |
| Copies.RenamedCopyDeleted | controllers/sync_reconciler.go:606-642 | once anything was renamed, a delete request removes a stored copy if and only if the copy claims the source, nothing else does, and its owner lets it go |
| Copies.RenamedLifecycle | controllers/sync_reconciler.go:584-707 | from the reconcile that writes a renamed copy to the one that finds its source gone or terminating: the copy is deleted if and only if the stated condition on rename, kind, labels, other claims and owner holds; a terminating source is looked up by its own references |
| Protocol.OverrideFreeReconcile | controllers/sync_reconciler.go:208-327 | without overrides nothing is ever renamed, and a reconcile is the protocol's pull step |
| Protocol.OfferFacts | controllers/sync_reconciler.go:503-514 | an offer always has an owner (the source's, else the peer), keeps name, namespace and content, and drops finalizers and owner references |
| Protocol.WithdrawnWhereWritten | controllers/sync_reconciler.go:651-654 | the delete path looks at the key the copy was written to whenever every kind-changing rule matched |
| Protocol.PullEffect | controllers/sync_reconciler.go:731-778 | a key keeps its object up to status, or gets a permitted offer; it vanishes only by a permitted withdrawal |
| Protocol.PeerCannotTouch | controllers/sync_reconciler.go:709-711 | a copy whose owner is alive and is not the peer read from is beyond that controller |
| Protocol.CopyOrigin | controllers/sync_reconciler.go:731-778 | a copy after a step was there before, or was accepted from a peer that held the object as its native or as a copy of the same owner |
| Safety.NativeStep | controllers/sync_reconciler.go:767-770 | no step but a user's changes, removes or produces a native, whatever the rules say |
| Safety.NativesConserved | controllers/sync_reconciler.go:685-691 | over any stretch of any run without a user step on it, a native or its absence is preserved up to status |
| Safety.StatusExact | controllers/sync_reconciler.go:314-320 | the status of any present object after a step: the offered one if and only if the step writes statuses to that key, accepted or not |
| Safety.NativeStatusExact | controllers/sync_reconciler.go:314-320 | a sync step changes a native at all if and only if it writes a different status for that very key |
| Safety.Provenance | controllers/sync_reconciler.go:469-509 | in every run from natives only, the content of a copy owned by c was held natively by c earlier, within any family of keys closed under the rules, however many hops it travelled |
| Safety.OneKeyClosed | api/v1alpha1/resourcesyncrule_match.go:169-189 | under rules that keep kinds every single key is such a family, whatever other kinds share its name |
| Safety.AllKindsClosed | api/v1alpha1/resourcesyncrule_match.go:169-189 | all kinds of one namespace and name are a closed family under every rule |
| Safety.SingleOrigin | controllers/sync_reconciler.go:742-746 | if only c ever holds the object natively, every copy is c's and c never holds one, whichever clusters are alive; per key or per closed family |
| Safety.SelfOwnedExactly | controllers/sync_reconciler.go:755-778 | a step makes a cluster hold a copy of its own if and only if it updates a touchable foreign copy with an offer marked as its own |
| Safety.DrainBegins | controllers/sync_reconciler.go:216-219 | deleting the only native of the family starts a drain |
| Safety.DrainStep | controllers/sync_reconciler.go:748-751 | in a drain no step creates a copy |
| Safety.DrainRemoves | controllers/sync_reconciler.go:685-699 | in a drain, reading from the origin removes the reader's copy |
| Safety.DrainShrinks | controllers/sync_reconciler.go:644-711 | over any drain the set of holders only shrinks and stays owned by the origin |
| Safety.Drained | controllers/sync_reconciler.go:644-711 | once every holder has read from the origin, no copy is left anywhere |
| Safety.DeletionReachesAll | controllers/sync_reconciler.go:644-711 | from any run of natives to the deletion: if only c ever held the object, in any family of keys closed under the rules, then once every holder has read from c no copy is left |
| Safety.DeletionOfKey | controllers/sync_reconciler.go:644-711 | the same for one key under rules that keep kinds, whatever else has the same name |
| Safety.DeletionOfName | controllers/sync_reconciler.go:644-711 | the same for all kinds of one name under rules that change kinds as they like |
| Safety.DeadOwnerCycle | controllers/sync_reconciler.go:693-699 | reading from a holder and then from a cluster without the object creates the copy and deletes it again if and only if it is not excluded, its owner is neither the reader nor alive, and it was written where the delete path looks |
| Safety.ExcludedNotChanged | controllers/sync_reconciler.go:761-764 | a local object excluded from syncing is changed by no step but a user's |
| Safety.ExcludedStaysMissing | README.md:182-188 | where every source read is excluded from syncing, an object that is missing stays missing over any run |
| Safety.AuthorityStep | controllers/sync_reconciler.go:772-775 | one step keeps an owned copy owned, and changes it only to the owner's current content by the owner's controller |
| Safety.OwnerAuthority | controllers/sync_reconciler.go:755-778 | while c is alive and holds the object, its copy stays c's, never goes back, never runs ahead of c, and changes only by the controller for c |
| Convergence.Outcome | controllers/sync_reconciler.go:717-780 | in a ready mesh every step leaves a version alone up to status or installs the offer of the cluster that natively holds the object |
| Convergence.TodoStep | controllers/sync_reconciler.go:717-780 | no step unsettles a cluster, and every step that changes more than a status settles the cluster it writes |
| Convergence.WriteBound | controllers/sync_reconciler.go:208-327 | under any schedule, each unsettled cluster is written at most once and settled ones never, not counting statuses |
| Convergence.QuiescentConverged | controllers/sync_reconciler.go:208-327 | if no read changes anything but statuses, every supplied cluster holds the object and every copy equals its owner's mutated native up to status |
| Convergence.ConvergedIsStable | controllers/sync_reconciler.go:755-778 | a converged mesh is left alone by every step, up to status |
| Convergence.FairRunConverges | controllers/sync_reconciler.go:208-327 | once every cluster has read from every other, in any order with any steps between, the mesh has converged, up to status |
| Convergence.FreshMeshConverges | controllers/sync_reconciler.go:208-327 | the same from natives only, whichever clusters hold them |
| Convergence.MeshHeals | README.md:169-170 | after any interleaving of steps with edits of natives and changes or deletions of copies, the next fair run restores every copy to its owner's current object, up to status |
| Statuses.ExactWriteBound | controllers/sync_reconciler.go:314-320 | under rules that do not sync statuses the bound on writes counts every change, statuses included |
| Statuses.StableExactly | controllers/sync_reconciler.go:314-320 | every step leaves every version of a converged mesh exactly as it is if and only if the offered statuses agree with the held ones |
| Statuses.ConvergedForGood | controllers/sync_reconciler.go:208-327 | once converged with agreeing statuses, or under rules that do not sync them, every version stays exactly as it is through any further run |
| Statuses.HeldAfter | controllers/sync_reconciler.go:314-320 | the statuses held after any step of a converged mesh: the stepping cluster takes over the status it is offered, whoever owns the object and whatever the kind, and no other changes |
| Gossip.Unsettled | controllers/sync_reconciler.go:314-320 | if some cluster is told two different statuses, all reads can be scheduled so that the statuses still differ at the end |
| Statuses.StatusesSettleExactly | controllers/sync_reconciler.go:314-320 | every fair run of any converged mesh ends with agreeing statuses if and only if no cluster that holds the object is offered two different ones by others |
| Statuses.OffersAgreeMeans | controllers/sync_reconciler.go:314-320 | where every cluster holds the object, that condition is: all offered statuses agree, or there are at most two clusters |
| Instances.NativeStatusLost | controllers/sync_reconciler.go:314-320 | a native gets the status of another cluster's native |
| Instances.NativeStatusLostCase | controllers/sync_reconciler.go:314-320 | the same in a concrete group of natives |
| Instances.StatusesApart | controllers/sync_reconciler.go:314-320 | a converged mesh that some fair run leaves with different statuses |
| Instances.StatusesApartCase | controllers/sync_reconciler.go:314-320 | a concrete mesh of that kind |
| Instances.SourcesSettle | controllers/sync_reconciler.go:314-320 | under a rule that selects only objects without the ownership label, the statuses of any number of copies of one native settle |
| Instances.OwnCopyReached | controllers/sync_reconciler.go:755-778 | a run from natives only to a cluster that holds a copy of its own object |
| Instances.OwnCopyCase | controllers/sync_reconciler.go:755-778 | the same in a concrete group of three clusters |
| Instances.FlappingReached | controllers/sync_reconciler.go:693-699 | a run from natives only into a cycle that creates and deletes a copy |
| Instances.FlappingCase | controllers/sync_reconciler.go:693-699 | the same in a concrete group |
| Instances.MovedCopyStays | controllers/sync_reconciler.go:606-642 | a copy of which only the namespace changed outlives its source |
| Registry.MatchFeatures | pkg/clusters/cluster_features.go:60-83 | the search finds whether some feature fits, in any iteration order, invalid selectors included |
| Registry.SatisfiedMonotone | pkg/clusters/cluster.go:512-527 | more features never take a requirement away |
| Registry.Cluster.CheckRequiredFeatures | pkg/clusters/cluster.go:512-527 | the loop decides whether all requirements are met |
| Registry.Cluster.AddController | pkg/clusters/cluster.go:277-317 | the whole new registry: started, ignored as already active, or pending |
| Registry.Cluster.AddFeature | pkg/clusters/cluster.go:174-186 | exactly the pending controllers whose requirements are now met start |
| Registry.Cluster.RemoveFeature | pkg/clusters/cluster.go:188-200 | exactly the active controllers whose requirements are no longer met become pending |
| FeatureGating.GatedIsClassified | pkg/clusters/cluster.go:61-62 | the split invariant holds if and only if the two maps are the declarative filter of what is registered |
| FeatureGating.AddExactly | pkg/clusters/cluster.go:277-317 | adding keeps the filter if and only if no different controller of that name is active |
| FeatureGating.FeatureExactly | pkg/clusters/cluster.go:174-186 | adding or changing a feature keeps the filter if and only if no active controller loses a requirement |
| FeatureGating.FreshFeatureSafe | pkg/clusters/cluster.go:174-186 | a feature under a new identifier always keeps the filter |
| FeatureGating.RelabelledFeatureLeavesActive | controllers/remote_cluster_feature_reconciler.go:63-64 | relabelling a needed feature leaves its controller running unsupported |
| FeatureGating.FeatureLossKeeps | pkg/clusters/cluster.go:188-200 | removing a feature always keeps the filter and loses no controller |
| FeatureGating.RuleCoherence | controllers/resource_sync_rule_reconciler.go:111-142 | after a rule's reconcile the cluster has exactly the rule's controller under its name, others untouched, with the exact condition |
| FeatureGating.RuleActiveExactly | controllers/resource_sync_rule_reconciler.go:218-234 | after a rule's reconcile its controller is active if and only if for every feature match of the rule the cluster has a feature of that name, if one is given, whose labels the valid selector chooses; otherwise it is pending; and it runs the rule as it is now |
| FeatureGating.RuleWithoutLimiter | controllers/resource_sync_rule_reconciler.go:131-138 | where no limiter can be built, an active controller of another rule is taken down and not replaced; otherwise nothing changes |
| FeatureGating.GatingIsFilter | pkg/clusters/cluster.go:174-373 | after any history of controllers, rules and features, active and pending are exactly the filter of what was declared by what is present |
| RuleReconciler.RequirementsOf | controllers/resource_sync_rule_reconciler.go:218-225 | the loop builds the requirement list whose meaning FeatureGating.RuleActiveExactly states: one per feature match, with its name and selector |
| RuleReconciler.InitController | controllers/resource_sync_rule_reconciler.go:209-235 | adds the rule's controller, or nothing without a rate limiter |
| RuleReconciler.SyncClusterController | controllers/resource_sync_rule_reconciler.go:111-142 | the registry after keeping, replacing or installing the controller |
| RuleReconciler.Reconcile | controllers/resource_sync_rule_reconciler.go:84-109 | every managed cluster gets the rule's effect, or loses the controller of a deleted rule |
| RuleReconciler.RuleGone | controllers/resource_sync_rule_reconciler.go:89-95 | a rule that is gone has no controller left, active or pending, and all others are as they were |
| Manager.Manager.Remove | pkg/clusters/manager.go:225-250 | the entry of that name is gone and no other |
| Manager.Manager.GetAliveClustersByID | pkg/clusters/manager.go:194-206 | an ID is present if and only if some entry with it is alive, and stands for one of them |
| Manager.ClusterReconciler.Connect | controllers/cluster_reconciler.go:247-269 | a new live connection with exactly the two built-in controllers active, or none |
| Manager.SecretIdDistinguishes | controllers/cluster_reconciler.go:181 | references to different secrets always have different secret IDs |
| Manager.ClusterReconciler.Enter | controllers/cluster_reconciler.go:247-276 | a connection that works is entered with its credentials; one that fails changes nothing |
| Manager.ClusterReconciler.GetRemoteCluster | controllers/cluster_reconciler.go:178-277 | the entries and the outcome for a peer with auth info |
| Manager.ClusterReconciler.RemoveRemoteCluster | controllers/cluster_reconciler.go:279-289 | exactly the entry of that name is gone |
| Manager.ClusterReconciler.Reconcile | controllers/cluster_reconciler.go:69-148 | the entries and the outcome of a reconcile, as Manager.EntriesFollowResource characterises them |
| Manager.EntriesFollowResource | controllers/cluster_reconciler.go:69-277 | from the resource, its secret, the entry and the answer alone: no entry when gone, local, disabled, unreadable or unreachable; no change without a secret reference, for a dead connection, or with current credentials; otherwise a live entry with exactly the declared credentials; and the outcome of each case |
| Manager.ManagerAgrees | controllers/cluster_reconciler.go:178-277 | other names unchanged; the entry that each outcome stands for; on a connection the credentials are the declared ones, with an exact exception for entries built without a credential |
| Manager.ConnectedMeansCurrent | controllers/cluster_reconciler.go:199-219 | after any history of reconciles and liveness changes, a reported connection carries exactly the declared credentials; the exception is never reached |
| Conflicts.StepFacts | controllers/cluster_reconciler.go:367-392 | a reconcile changes at most the flag of its own resource, and makes it right |
| Conflicts.StepOnTrack | controllers/cluster_reconciler.go:367-419 | every reconcile keeps each resource right, queued, or about to be queued |
| Conflicts.CreatedOnTrack | controllers/cluster_reconciler.go:374-387 | creating a resource in a settled group puts all flags on track if and only if no enabled one is overlooked by a disabled rival |
| Conflicts.DeletedOnTrack | controllers/cluster_reconciler.go:81-95 | deleting a resource from a settled group sets all flags on track |
| Conflicts.DisabledRivalUnnoticed | controllers/cluster_reconciler_watches.go:44-61 | a disabled rival that is listed second leaves a wrong flag with an empty queue |
| Conflicts.StepDecreases | controllers/cluster_reconciler.go:394-419 | every reconcile lowers a well-founded measure, so the self-triggering queue runs dry |
| Conflicts.QuiescentIsRight | controllers/cluster_reconciler.go:367-419 | along any chain of reconciles from a state on track, an empty queue means every flag is right |
| Conflicts.RequestsSettleRight | controllers/cluster_reconciler.go:367-419 | along any chain of reconciles after a creation, whatever was queued with it, once the queue is empty all flags are right if and only if no enabled resource is overlooked |
| Conflicts.CreationSettlesRight | controllers/cluster_reconciler_watches.go:35-69 | with the requests that the watch makes from a listing in any order, the final flags are wrong if and only if the new resource is disabled, claims the local ID and is listed behind an enabled one without a rival |
| Conflicts.ConflictController.CheckLocalConflict | controllers/cluster_reconciler.go:367-392 | one conflict check, with the rival found first in any listing order |
| Conflicts.ConflictController.WatchRequests | controllers/cluster_reconciler_watches.go:35-69 | the requests of the watch: the entries of local type in the table by cluster ID, later entries of the listing winning |
| Conflicts.ConflictController.Reconcile | controllers/cluster_reconciler.go:69-95 | one request, including the wake-up of all flagged resources for a deleted one |
| Conflicts.ConflictController.Drain | controllers/cluster_reconciler.go:394-419 | the queue is emptied, no claim changes, and from a state on track every flag ends right |
| Conflicts.ConflictController.Create | controllers/cluster_reconciler.go:367-392 | after a creation and its requests exactly that resource is added, and every flag is right if and only if it is not listed behind as a disabled rival |
| Conflicts.ConflictController.Delete | controllers/cluster_reconciler.go:81-95 | after a deletion and its requests exactly that resource is gone, and flags that were right are right |
| Conflicts.ConflictController.Serve | controllers/cluster_reconciler.go:69-95 | after any sequence of creations and deletions exactly the declared resources are there and the queue is empty, and if the created ones were enabled every flag is right |
| Conditions.Tracker.SetCondition | controllers/cluster_conditions.go:29-55 | the conditions and events after one call |
| Conditions.TransitionTime | controllers/cluster_conditions.go:29-55 | a condition that was set always has a transition time: of this call if the status changed, else the one it had, or came with |
| Conditions.ConditionHistory | controllers/cluster_conditions.go:29-55 | after any calls: last status, reason, message and heartbeat, and the time of the first call in the latest run of equal statuses |
| Conditions.EventHistory | controllers/cluster_conditions.go:36-43 | the events are exactly the status changes in order, warnings exactly for the bad ones |
| Conditions.ToList | controllers/common.go:79-88 | the stored list has no duplicates and reads back as the map, without the sync condition on local clusters |
| Conditions.GetCurrentConditions | controllers/cluster_conditions.go:57-64 | the map of a list, later entries winning |
| Conditions.GetCurrentCondition | controllers/cluster_conditions.go:66-74 | the first entry of a type, if there is one |
| Conditions.LookupAgrees | controllers/cluster_conditions.go:57-74 | on a list without duplicates both ways of reading agree |
| ClusterStatus.Reconcilers.UpdateCluster | controllers/common.go:79-115 | the stored status: the kept conditions, and the failed state for an error that no other state explains |
| ClusterStatus.Reconcilers.Reconcile | controllers/cluster_reconciler.go:69-148 | the stored status and the events of a pass: nothing is stored for an enabled peer without an error |
| ClusterStatus.Reconcilers.ReconcileRemote | controllers/remote_cluster_reconciler.go:58-116 | the stored status and the events of a pass against the peer itself |
| ClusterStatus.RemotePassLeaves | controllers/remote_cluster_reconciler.go:74-116 | what a saved pass against the peer leaves, type by type: synced if and only if the check ran without an error, else the error; metadata by whether it could be read, if tried; all else as it was; the message, state and heartbeat |
| ClusterStatus.LocalPassLeaves | controllers/cluster_reconciler.go:311-337 | what a saved pass over the local resource leaves: local and ready, conflicting if and only if there is a rival, metadata by whether it could be read, if it got that far, no sync condition; the message and state of the pass's error |
| ClusterStatus.PeerPassLeaves | controllers/cluster_reconciler.go:291-309 | a saved pass over an enabled peer stores nothing unless connecting failed; then not local, not in sync with the error, yet ready; the message and state |
| ClusterStatus.OtherPassLeaves | controllers/cluster_reconciler.go:116-148 | a disabled resource's status is cleared; an unread resource or an unsaved status stays as it was |
| ClusterStatus.ReadyHistory | controllers/cluster_reconciler.go:132-148 | after any history the ready condition is stored if and only if some pass over the enabled resource stored its status and no later one cleared it, and it is never false |
| ClusterStatus.PeerReadyMeansFailed | controllers/cluster_reconciler.go:138-148 | over any history of an enabled peer, the ready condition is stored, and true, if and only if some connection attempt failed in a pass whose status was saved |
| ClusterStatus.StateHistory | controllers/common.go:91-96 | the stored state is the verdict of the last pass that wrote it: failed or invalid if and only if it failed, disabled if and only if disabled, and never missing auth info |
| ClusterStatus.StoredHistory | controllers/cluster_reconciler.go:116-148 | after any history, each pass starting from what was stored before: a condition is stored if and only if a report about it counts, and it is what the counting reports tell, with status, heartbeat and the start of its latest run of equal statuses |
| ClusterStatus.StoredEvents | controllers/cluster_conditions.go:36-43 | the events of any such history are exactly the reported changes of what was last counted |
| ClusterStatus.WarningsAreApt | controllers/cluster_conditions.go:36-43 | over any history an event is a warning if and only if it announces one of the five bad turns: not local, conflicting, without metadata, not in sync, not ready |
| Agreement.GetClusters | controllers/common.go:52-65 | the table by cluster ID, later entries winning |
| Agreement.LastOfId | controllers/common.go:59-62 | the last listed resource of an ID is the table's entry for it |
| Agreement.ComplaintMeaning | controllers/remote_cluster_reconciler.go:141-156 | a complaint is made if and only if it is true: missing there, named differently there and here, or not ready there |
| Agreement.CheckAll | controllers/remote_cluster_reconciler.go:141-156 | no complaint if and only if the tables agree; the complaints are exactly those of the resources |
| Agreement.SyncClusters | controllers/remote_cluster_reconciler.go:130-157 | the check passes if and only if everything known here is known there by the same name and ready |
| Agreement.RingAgreement | controllers/remote_cluster_reconciler.go:130-157 | checks pass all the way round a ring of any length if and only if all its tables have the same IDs and names and every entry is ready |

## Left out

- Overrides in the group: the protocol theorems are about rules without overlay patches; with them the patch engine is an arbitrary function, and only the single reconcile and the rename results cover it.
- Rules.MatchOne: content selectors, which query the JSON form of the whole object with a foreign engine; the theorems are about rules without them, in particular without selectors that look at the status.
- Label syntax: validity of a selector covers operators and value lists, not the character rules for keys and values.
- Fields the API server fills in, the service IP kept on updates, and finalizers or termination of local copies.
- Missing namespaces are re-queued and rate-limited requests are re-queued; the model has the skipped write but not the timer.
- Conditions.ToList: the list in memory; that the failure polarity is lost when it is stored is part of ClusterStatus.
- Convergence.WriteBound: up to status, because it is false for statuses; the exact statements are in Statuses, and the same holds for the four lines that follow.
- Convergence.QuiescentConverged: up to status.
- Convergence.ConvergedIsStable: up to status.
- Convergence.FairRunConverges: up to status.
- Convergence.MeshHeals: up to status; a status that a user changed on a copy is not restored by a rule that does not sync statuses, and need not be by one that does.
- Statuses.StatusesSettleExactly: "only if" is not stated where the kind changes of the rules cancel out in the delete path and copies under the source key belong to owners that do not hold the object; such copies are withdrawn during the run, and with them what they offer.
- ClusterStatus.Reconcilers.UpdateCluster: the error it returns to the work queue, and the retry after a write conflict.
- Manager.ConnectedMeansCurrent: assumes that an empty kubeconfig does not connect, which the client library decides.
- Manager.ManagerAgrees: a resource without auth info and a dead connection keep their old entry, as in the code.
- Conflicts.ConflictController.Create: editing the cluster ID of an existing resource; the branch that would react to it follows a status reset and never fires. Requests from the refresh interval and from secrets are not part of it.
- Copies stay when their source stops matching a rule; the code has no step that removes them.
- Waiting for a removed controller to stop, starting and stopping managers, and other goroutine behaviour.
- Clients, caches, informers, watch predicates, event recorders, access reviews, certificates, provider detection and the admission webhook.
