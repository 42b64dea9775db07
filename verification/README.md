# Verified model of the MongoDB operator and its DBaaS adapter

The operator runs MongoDB replica sets on Kubernetes: it places their volumes, restarts them when volumes
grow, joins two sites for disaster recovery, resizes oplogs and judges health. The DBaaS adapter shards
collections on request. This project models the decisions in that code as Dafny functions, methods and
classes, and proves what they keep over all inputs and all runs. Remote commands are steps that may fail,
or take effect and still report a failure. Code that changes things step by step is kept as methods with
loops, on arrays, or on class fields; its specification functions carry the lemmas.

| module | what it models |
|---|---|
| `Placement` | the greedy, mirror-symmetric allocator of volumes and nodes; a closed form for its choices; fairness; shape and stability of rows |
| `Decimal`, `Names` | StatefulSet names, the groups of StatefulSets that share a PVC ordinal |
| `Topology` | what the create steps ask of the allocator, and how that fits the groups |
| `Expansion` | the rolling restart for grown PVCs as a state machine with a recorded history; deletion of a standby site's StatefulSets |
| `Hosts` | member host names, JavaScript's `split` and `indexOf`, the domain rename |
| `ReplicaSets` | the JavaScript transforms of a member list, initiation, adding hidden members |
| `DisasterRecovery` | the path from an HA cluster to a two-site cluster; two operators reconfiguring the same sets |
| `ShardKeys`, `ShardCatalog`, `SettingsParser` | shard keys, their comparison, the catalog under lists of requests, parsing of a request |
| `Grants` | temporary role grants of sections that overlap |
| `Health` | member states to replica-set status, gathered statuses to cluster status |
| `OplogResize` | the two resize passes and their command trace |
| `ClientCache` | the cache of database clients |

## What the proofs found

Properties that hold of the code only under a condition, each with its exact condition or a concrete run:

- The DR schema has no parity check. An even-sized replica set over an odd number of volumes leaves its last
  member without a volume, and the create step panics on an index (`Topology.PlacedIffListsFit`,
  `Topology.DrSizesCanPanic`). In every schema a set panics likewise if some nodes are labelled, but fewer than
  it has members (`Topology.PlacedIffListsFit`; for validated HA and arbiter sizes nothing else can go wrong,
  `Topology.ValidatedSizesArePlaced`).
- The restart assumes that PVC N is mounted by member N of every set. That holds exactly when the cluster
  is sharded and neither config nor data sets leave out volumes (`Topology.GroupsShareVolumesIff`).
- Without sharding nothing creates config-server StatefulSets, yet the restart asks for them by name, so it
  fails even when no call does (`Expansion.GroupsPresentIff`, `Expansion.Cluster.OnNeedsRestart`).
- StatefulSet names join shard and member numbers without a separator. They collide exactly with more than
  ten shards and more than ten data replicas (`Names.GroupsPartition`).
- Raising the shard count from one can move the first shard's volumes (`Placement.RowsWhenShardsAreAdded`), and a
  data replica's volume and node are picked by different rows (`Topology.VolumeAndNodeAgree`).
- The rename cuts at the first `.svc.`, so it spoils hosts in a namespace called `svc` and skips domains that
  contain `.svc.` (`Hosts.RenameMovesHost`).
- Joining a second site whose domain is `cluster.local`, the domain the first cluster was initiated on, takes
  the own members for the other site's and hides them all, so that nobody can vote
  (`DisasterRecovery.HaBecomesDr`, `DisasterRecovery.NoVoterIff`). A site without a domain of its own skips the
  rename and keeps its members on `cluster.local`.
- After an aborted restart a later successful one keeps what was left at zero (`Expansion.RestoredIff`).
- A grant section's deferred revocation overwrites the error of its body, so a run can report success although
  a collection was not sharded (`ShardCatalog.FailureCanBeMasked`, `ShardCatalog.RoundSatisfies`).
- A background redistribution asks for an older key exactly when a later request of the list refined the
  collection it was started for, and then a key can get shorter (`ShardCatalog.RedistributionsUpToDateIff`,
  `ShardCatalog.KeysOnlyGrowIff`).
- Role grants are not counted: one section's revocation strips the role from all sections that overlap it,
  and a grant that takes effect but reports a failure is never revoked (`Grants.HeldThroughoutIff`,
  `Grants.LostGrantLeaks`).
- A failed status gather is answered with Down and no error, because the error variable returned is not the
  one that was set; a sharded cluster is Up even if every shard is Degraded (`Health.ClusterUpIff`,
  `Health.UpDespiteDegradedShards`).
- The oplog checks compare the shell's output with `false` without trimming it. If outputs end in a line end,
  neither the lag nor the health gate ever stops a run (`OplogResize.LineEndsOpenTheGates`).
- A lag check for which no primary is found is never issued, yet reported as an empty output without an error,
  and passes. A run can so resize every member, primaries included, without one lag check
  (`OplogResize.MissingChecksPass`); the gate holds exactly when all lag checks are answered
  (`OplogResize.SecondariesFirstInTruth`).

Where the documentation and the code differ, the model follows the code: the PVC guide
(`docs/public/installation_guide.md`, from line 1118) describes a check before the restarts that the loop does
not make, and calls sending the same settings again safe, which needs the shard commands of the first run to
have been carried out.

## Model

| member | source | states |
|---|---|---|
| Placement.IntArrWithValues | operator/pkg/utils/utils.go:44-50 | a fresh array of the given size with every entry equal to the value |
| Placement.Max | operator/pkg/utils/utils.go:23-42 | picks a heaviest side that is not popped, first or (one shard) last of the ties; -1 exactly when every unpopped weight is negative |
| Placement.PopNext | operator/pkg/utils/utils.go:83-89 | one pop continues the greedy sequence and blanks exactly the two mirrored elements; fails exactly when no side is left |
| Placement.PopSides | operator/pkg/utils/utils.go:81-89 | all pops of a round: succeeds exactly when there are enough sides, and leaves the elements whose side was kept |
| Placement.ChargeKept | operator/pkg/utils/utils.go:91-95 | adds one to every side that was not popped and to no other |
| Placement.KeepNonEmpty | operator/pkg/utils/utils.go:97-102 | the non-empty entries in order |
| Placement.BlankedIsRow | operator/pkg/utils/utils.go:76-102 | blanking popped elements and dropping blanks gives the kept, named elements in order |
| Placement.NextRow | operator/pkg/utils/utils.go:76-104 | a round returns the row of the greedy pops and charges the other sides; panics exactly when too few sides exist |
| Placement.AllRows | operator/pkg/utils/utils.go:70-105 | row k of the result is the row the weights after k rounds call for; fails on the first shard or never |
| Placement.ElementsDistribution | operator/pkg/utils/utils.go:61-107 | equals the specification of the pick, every Go panic (negative size, index out of range) included |
| Placement.ReplicaNodeSelector | operator/pkg/utils/utils.go:137-147 | no label without elements; with named elements the key of the replica's own element with the name at its row entry, and a panic for a replica past the end of its row |
| Placement.SelectorIsRowEntry | operator/pkg/utils/utils.go:142-145 | the selector of a replica, spelled out by row entry |
| Placement.WeightsPoppable | operator/pkg/utils/utils.go:23-42 | in every round before every pop a side with non-negative weight is left, so the pick is never -1 |
| Placement.WeightsAreTwoLevel | operator/pkg/utils/utils.go:70-95 | after any number of shards the weights take two neighbouring values, the lower ones first, with the step at a cursor |
| Placement.PopsRotate | operator/pkg/utils/utils.go:83-89 | with several shards pop j of shard k is (k * extra + j) mod side: the greedy choice is a rotation |
| Placement.PopsOfLoneShard | operator/pkg/utils/utils.go:33-40 | a lone shard pops the last sides, from the end |
| Placement.PopsDistinct | operator/pkg/utils/utils.go:81-89 | the pops of a shard are different sides within range |
| Placement.FairPlacement | operator/pkg/utils/utils.go:67-95 | at any point of a run over any number of shards the weights sum to shards so far times used sides, and each is the floor of its share or one more: for the last total mod side of them, or with a lone shard for the first |
| Placement.LoneRound | operator/pkg/utils/utils.go:33-40 | a lone shard charges exactly the first used sides |
| Placement.WeightsCountUse | operator/pkg/utils/utils.go:91-104 | in a run over any number of shards, a lone one included, the number of shards so far that use a volume is the weight of its side; middle volumes serve all |
| Placement.RowShape | operator/pkg/utils/utils.go:76-104 | a row is increasing, mirror-symmetric, keeps the middle, and has exactly as many entries as replicas when the parities agree (one fewer or more otherwise) |
| Placement.PickIsRowEntry | operator/pkg/utils/utils.go:106-106 | with named elements the pick is the element at the row's entry, so indices depend on the counts and not on the names |
| Placement.EveryReplicaServed | operator/pkg/utils/utils.go:61-107 | all replicas of all shards are served if and only if it is not the case that the elements are odd in number and the replicas even |
| Placement.RowsWhenShardsAreAdded | operator/pkg/utils/utils.go:61-107 | adding shards keeps all existing rows if and only if there were two or more, or no side or every side is popped |
| Decimal.Injective | operator/pkg/utils/utils.go:400-400 | different numbers are rendered differently |
| Decimal.ShortTailInjective | operator/pkg/mongodb/mongodb.go:197-197 | two joined decimals with one-digit second parts can be read in one way only |
| Decimal.ShortHeadInjective | operator/pkg/mongodb/mongodb.go:197-197 | so can two joined decimals whose first parts are 1 to 10 |
| Names.InGroup | operator/pkg/mongodb/mongodb.go:191-199 | membership in the group of a PVC ordinal, by kind and shard |
| Names.DataInjective | operator/pkg/mongodb/data_step.go:128-128 | with at most ten shards or ten data replicas a data StatefulSet name determines shard and member |
| Names.GroupDistinct | operator/pkg/mongodb/mongodb.go:186-199 | no group lists a StatefulSet twice, whatever the sizes |
| Names.GroupsCover | operator/pkg/mongodb/mongodb.go:186-199 | the groups of all ordinals contain exactly the config-server and data names |
| Names.GroupsAreTheCreated | operator/pkg/mongodb/cnf_step.go:56-87 | the groups are the created StatefulSets if and only if the cluster is sharded or has no config size |
| Names.GroupsDisjoint | operator/pkg/mongodb/mongodb.go:186-199 | groups of different ordinals share no name while the decimals are unambiguous |
| Names.GroupsPartition | operator/pkg/mongodb/mongodb.go:186-199 | the groups are pairwise disjoint if and only if there are at most ten shards or at most ten data replicas |
| Topology.PlacedIffListsFit | operator/pkg/mongodb/data_step.go:101-133 | the create steps run without a panic, for volumes and for nodes, if and only if each created set finds volumes of a fitting parity and, unless no node is labelled, enough labelled nodes of a fitting parity |
| Topology.NodesServedIff | operator/pkg/mongodb/cnf_step.go:89-91 | the node picks of a set succeed if and only if there are no labelled nodes, or at least as many as members and not an odd number for an even size |
| Topology.ValidatedSizesArePlaced | operator/pkg/mongodb/calc_replica_size_step.go:17-50 | sizes that pass validation of an HA or arbiter schema are placed if and only if no node is labelled or each created set has at least as many labelled nodes as members |
| Topology.DrSizesCanPanic | operator/pkg/mongodb/calc_replica_size_step.go:28-33 | four config servers with five data replicas pass validation of the DR schema and then panic, whatever the nodes |
| Topology.Validate | operator/pkg/mongodb/calc_replica_size_step.go:17-37 | refuses zero sizes outside the single schema, and even sizes outside the DR schema, and nothing else |
| Topology.CalculateMaxReplicaSize | operator/pkg/mongodb/calc_replica_size_step.go:39-50 | the PVC count is the larger of the two sizes, or one for the single schema |
| Topology.PicksAreRowEntries | operator/pkg/mongodb/data_step.go:129-133 | config and data volumes and nodes are the elements at the row entries of the shard and list they are picked for |
| Topology.MembersHaveOwnVolumes | operator/pkg/mongodb/data_step.go:119-129 | two members of a shard never get the same volume |
| Topology.FullSetIsIdentity | operator/pkg/mongodb/cnf_step.go:86-88 | when no side is left out member i uses volume i |
| Topology.MiddleOfRow | operator/pkg/utils/utils.go:76-104 | the middle volumes come right after the kept ones of the front half |
| Topology.SmallerSetMoves | operator/pkg/utils/utils.go:61-107 | when some side is left out some member's volume number differs from its own |
| Topology.GroupsShareVolumesIff | operator/pkg/mongodb/mongodb.go:187-199 | group N is the set of StatefulSets mounting PVC N, for all N, if and only if the cluster is sharded and config and data sets leave out no side; for sizes of equal parity, if and only if it is sharded and the sizes are equal |
| Topology.VolumeAndNodeAgree | operator/pkg/mongodb/data_step.go:129-133 | for volume and node lists of any two lengths: the picked indices agree for all replicas of all shards if and only if the lists have equally many sides, are equally long unless no side is left out or there is one replica, and all shards leave out the same sides |
| Expansion.Cluster.GetStatefulSetByName | operator/pkg/mongodb/mongodb.go:226-233 | reads the replica count of a StatefulSet that exists |
| Expansion.Cluster.ScaleStatefulSetByName | operator/pkg/mongodb/mongodb.go:236-238 | changes at most the one count, and surely when it reports success |
| Expansion.Cluster.OwnersOf | operator/pkg/mongodb/mongodb.go:207-215 | exactly the StatefulSets that own pods, each once |
| Expansion.Cluster.GroupNames | operator/pkg/mongodb/mongodb.go:190-199 | builds the group of an ordinal |
| Expansion.Cluster.GroupFor | operator/pkg/mongodb/mongodb.go:187-216 | the group of an ordinal, or in the single schema exactly the StatefulSets that own the listed pods |
| Expansion.Cluster.ScaleDown | operator/pkg/mongodb/mongodb.go:223-239 | every step leaves StatefulSets outside the group alone; on success the whole group is at zero and its counts are remembered, an absent one as 1; reliably succeeds exactly when the group exists |
| Expansion.Cluster.ScaleUp | operator/pkg/mongodb/mongodb.go:247-253 | sets the counts from before, an absent one to 1, touching nothing outside the group on the way |
| Expansion.Cluster.RestartGroup | operator/pkg/mongodb/mongodb.go:222-276 | one PVC: every recorded state is safe; success means the full cycle of zero, detach, restore and a passed health gate |
| Expansion.Cluster.RestartNext | operator/pkg/mongodb/mongodb.go:186-277 | the loop body keeps the whole run sound, on success and on every error exit |
| Expansion.Cluster.OnNeedsRestart | operator/pkg/mongodb/mongodb.go:180-279 | on every run, error exits included, StatefulSets outside the current group keep their count (1 if they had none), the group is at zero during the detach wait, ordinals advance only past a passed gate, nothing follows a failed gate; success restores every count after a full cycle of each non-empty group; a run without faults succeeds if and only if all derived StatefulSets exist |
| Expansion.SoundInRawCounts | operator/pkg/mongodb/mongodb.go:226-253 | what a run records, in raw counts |
| Expansion.OneMemberDown | operator/pkg/mongodb/mongodb.go:187-199 | in a safe state only the member of the current ordinal of each replica set can be off its original count |
| Expansion.StillOrdered | operator/pkg/mongodb/mongodb.go:256-276 | appending the steps of the next ordinal keeps the order of the run |
| Expansion.Advance | operator/pkg/mongodb/mongodb.go:186-277 | one more ordinal, finished or broken off, keeps the invariant of the run |
| Expansion.GroupsPresentIff | operator/pkg/mongodb/cnf_step.go:56-59 | when exactly the created StatefulSets exist, all groups exist if and only if the cluster is sharded or has no config size |
| Expansion.Cluster.RestartTwice | operator/pkg/mongodb/mongodb.go:180-279 | a restart and the next one: if the second succeeds, the first counts are back if and only if the first run left them, and the first run leaves at most one group off its counts |
| Expansion.RestoredIff | operator/pkg/mongodb/mongodb.go:231-235 | a successful restart after an aborted one restores the counts if and only if nothing was left at zero that was not there before |
| Expansion.Cluster.RemoveConfigRS | operator/pkg/utils/mongo_helper.go:1089-1097 | deletes config-server StatefulSets only, and all of them on success |
| Expansion.Cluster.RemoveDataRS | operator/pkg/utils/mongo_helper.go:1099-1109 | deletes data StatefulSets of the given shards only, and all of them on success |
| Hosts.SplitAtFirst | operator/pkg/utils/const.go:250-250 | JavaScript's split cuts first at the first occurrence of the separator |
| Hosts.NoSvcBefore | operator/pkg/utils/utils.go:406-416 | a built name has no `.svc.` before the one after its namespace, unless the namespace is svc |
| Hosts.SplitHost | operator/pkg/utils/const.go:250-251 | splitting a built name yields its pod, service and namespace first |
| Hosts.SplitDomain | operator/pkg/utils/const.go:251-251 | the rest splits further if and only if the domain contains `.svc.` |
| Hosts.RenameOfBuilt | operator/pkg/utils/const.go:245-262 | what the rename makes of any built name in a dot-free namespace, svc included |
| Hosts.HostInjective | operator/pkg/utils/utils.go:397-417 | in one set and namespace a host name determines member number and domain |
| Hosts.PodsOfStatefulSets | operator/pkg/mongodb/data_step.go:128-128 | member pods are those of the StatefulSets the create steps name, with shards counted from one |
| Hosts.HostNamesSpelled | operator/pkg/utils/utils.go:406-417 | the host names of both kinds of sets, letter by letter |
| Hosts.RenameMovesHost | operator/pkg/utils/const.go:245-262 | a member on a foreign domain becomes the same member on the new domain if and only if the namespace is not svc and the old domain has no `.svc.` in it |
| Hosts.RenameKeepsHost | operator/pkg/utils/const.go:253-253 | members on the new or the other domain are left as they are |
| ReplicaSets.JsTemplate | operator/pkg/utils/const.go:161-169 | hidden hosts get priority and votes 0, all others 1, nothing else changes |
| ReplicaSets.JsCheckReconfigNeeded | operator/pkg/utils/const.go:219-229 | asks for a reconfiguration if and only if the transform would change the configuration |
| ReplicaSets.ReconfigureForgets | operator/pkg/utils/const.go:161-169 | a reconfiguration overrides every earlier one and keeps hosts, ids and order |
| ReplicaSets.JsRenameMember | operator/pkg/utils/const.go:249-258 | the callback renames as specified and says whether it did |
| ReplicaSets.JsRenameMemberDomain | operator/pkg/utils/const.go:245-262 | renames every member in place; reports a change if and only if some member moves, and otherwise the configuration is unchanged |
| ReplicaSets.RenameBuilt | operator/pkg/utils/const.go:245-262 | on a mix of one old domain and the other site: moves exactly the old members, keeps hosts distinct, is idempotent |
| ReplicaSets.MongoReplicaSetInit | operator/pkg/utils/mongo_helper.go:554-582 | the initial members carry the host names of the host-name builders, which print them differently |
| ReplicaSets.InitialOptions | operator/pkg/mongodb/data_step.go:232-245 | initiated members are numbered in order, vote, and have hosts of their own; the last of a shard has priority 2 unless it is the arbiter, all others 1; only the chosen member of a shard is an arbiter |
| ReplicaSets.AddingIsExact | operator/pkg/utils/mongo_helper.go:701-719 | adding keeps old members in place, includes every asked host and no other, hides what it adds, never repeats a host |
| ReplicaSets.AddingAgain | operator/pkg/utils/mongo_helper.go:701-712 | adding hosts that are members already changes nothing |
| ReplicaSets.NextIdIsFirstFree | operator/pkg/utils/mongo_helper.go:681-690 | an added member is numbered one past all others |
| DisasterRecovery.JoinedHosts | operator/pkg/utils/utils.go:419-429 | the hosts of the joined configuration are those of the DR host-name builder, in order |
| DisasterRecovery.HaBecomesDr | operator/pkg/mongodb/mongodb.go:359-365 | from the configuration initiated on cluster.local, rename, add and reconfigure yield exactly this site's hosts voting and the other's hidden, if and only if this site names its domain, the domains differ, the other one is not cluster.local, and the namespace is not svc or the rename happens to skip all members |
| DisasterRecovery.JoinedVoters | operator/pkg/utils/utils.go:419-429 | under that condition a set of any size ends with exactly the hosts of the DR builder, and the voters are exactly this site's hosts |
| DisasterRecovery.UpgradedSets | operator/pkg/dr/add_data_replicas.go:31-33 | the config set is joined with the config size and each shard with the data size |
| DisasterRecovery.HiddenHostsByKind | operator/pkg/dr/reconfigure_datars.go:33-36 | what is hidden or added are as many hosts as the kind of set has members |
| DisasterRecovery.NoVoterIff | docs/public/troubleshooting.md:483-489 | with the other domain cluster.local the same steps leave no member voting, if and only if the namespace is not svc, or the rename skips its members or does not run for want of an own domain |
| DisasterRecovery.JoinedIsStable | operator/pkg/mongo.go:225-252 | running the steps again on the joined configuration changes nothing, in every namespace in which it can be reached |
| DisasterRecovery.LastCommandWins | operator/pkg/utils/mongo_helper.go:721-742 | under any interleaving of two operators a set shows the last effective command, or its first configuration |
| DisasterRecovery.SitesConverge | operator/pkg/dr/reconfigure_cnfrs.go:31-42 | an active and a standby site with swapped domains reach the same configuration under any interleaving |
| DisasterRecovery.OneSiteVotes | docs/public/dr_operations.md:16-34 | after any switchovers and failures the voters are exactly one site's hosts, never mixed and never none |
| DisasterRecovery.PassAlignsAllSets | operator/pkg/dr/reconfigure_datars.go:25-48 | one complete pass puts the config set and all shards on the same site, whatever happened before |
| DisasterRecovery.PassReconfigures | operator/pkg/dr/reconfigure_datars.go:25-48 | a pass reconfigures the sets it names and no others |
| DisasterRecovery.AdditionsOnlyHide | operator/pkg/utils/mongo_helper.go:701-719 | after any additions a set has its old members in place, and the new ones are hidden and were asked for |
| DisasterRecovery.GrownShards | operator/pkg/dr/add_data_replicas.go:24-39 | adding the other site to the shards leaves other sets alone |
| DisasterRecovery.SetGrows | operator/pkg/utils/mongo_helper.go:701-719 | additions from one site let deployed sets gain only hidden hosts of that site, and leave others as they are |
| DisasterRecovery.CommandsReconfigure | operator/pkg/utils/mongo_helper.go:721-742 | commands of one domain leave a set as it was or reconfigured once, and reconfigure all they name if all take effect |
| DisasterRecovery.VotersNeverMix | operator/pkg/mongo.go:225-252 | an active site's run from the initiated configuration never leaves voters of both sites in one set, whatever fails and wherever it stops |
| DisasterRecovery.NotMovedToOther | operator/pkg/utils/const.go:245-262 | outside namespace svc the rename turns no host whatsoever into one of the other site's |
| DisasterRecovery.RunsStayOneSided | operator/pkg/mongo.go:225-252 | from any configuration in which no voter is of the other site, or everyone is, any number of an active site's runs keep it so |
| DisasterRecovery.VotersNeverMixInRuns | operator/pkg/mongo.go:225-252 | after any number of an active site's runs from the initiated configuration, aborted or not, no set has voters of both sites, outside namespace svc |
| DisasterRecovery.Deployment.ReconfigureRS | operator/pkg/utils/mongo_helper.go:721-742 | the set is either reconfigured or unchanged, through skips and retries; surely reconfigured when nothing fails |
| DisasterRecovery.Deployment.HideDomain | operator/pkg/dr/reconfigure_cnfrs.go:38-41 | one command of a reconfigure step, as an event of the run; if effective it hides the hosts of the domain, as many as the config or data size |
| DisasterRecovery.Deployment.ReconfigureCnfrs | operator/pkg/dr/reconfigure_cnfrs.go:18-48 | hides the other domain when active and the own one on standby; skipped without sharding or on a clean standby deployment |
| DisasterRecovery.Deployment.ReconfigureDataRS | operator/pkg/dr/reconfigure_datars.go:17-48 | issues exactly the commands of the mode, for every shard in order |
| DisasterRecovery.Deployment.RenameRSMemberDomain | operator/pkg/utils/mongo_helper.go:161-169 | the set is either renamed or unchanged; without pods it reports success and does nothing |
| DisasterRecovery.Deployment.RenameMemberDomain | operator/pkg/dr/rename_member_domain.go:17-48 | exactly the recorded, deployed sets are renamed and others unchanged, on every run; all deployed ones when nothing fails |
| DisasterRecovery.Deployment.AddHiddenReplica | operator/pkg/utils/mongo_helper.go:681-690 | adds the host at most once over all retries, and only if it is not a member |
| DisasterRecovery.Deployment.AddDRReplicas | operator/pkg/utils/mongo_helper.go:701-719 | the set gains exactly the missing hosts of a prefix of the list, of the whole list on success |
| DisasterRecovery.Deployment.AddSite | operator/pkg/dr/add_config_replicas.go:21-29 | adds the other site's hosts to one set, as many as the config or data size, or some of them on failure |
| DisasterRecovery.Deployment.AddDATAReplicas | operator/pkg/dr/add_data_replicas.go:24-39 | whole shards in order; a failure leaves one shard part-way and later ones alone |
| DisasterRecovery.Deployment.AddOtherSite | operator/pkg/mongodb/mongodb.go:363-364 | on every run deployed sets gain only hidden hosts of the other site and other sets nothing; on success every deployed set has all of them |
| DisasterRecovery.Deployment.ReconfigureAll | operator/pkg/mongo.go:231-232 | every deployed set is left alone or hides the domain of the mode, the latter for all without faults; a clean standby deployment changes nothing |
| DisasterRecovery.Deployment.ReconcileActive | operator/pkg/mongo.go:225-252 | on every run, error exits included, each deployed set is renamed or not, grown by hidden hosts of the other site, and reconfigured or not, and other sets are unchanged; without faults every deployed set reaches the joined configuration, so from the initiated one the config set and each shard end with exactly the hosts of both sites in their own size, and this site's hosts vote |
| ShardKeys.KeyFieldEqual | services/dbaas-adapter/pkg/mongodbService.go:874-891 | holds if and only if the stored element means the requested field |
| ShardKeys.MeaningSpelled | services/dbaas-adapter/pkg/mongodbService.go:874-891 | which stored values count as a field, and that no others do |
| ShardKeys.IsPrefix | services/dbaas-adapter/pkg/mongodbService.go:893-903 | holds if and only if the requested fields are a prefix of the meaning of the stored key |
| ShardKeys.ShardKeyMatches | services/dbaas-adapter/pkg/mongodbService.go:731-741 | exact iff the request is a prefix of the current key, refinable iff the current key is a strict prefix of the request, never both |
| ShardKeys.BuildShardKeyDoc | services/dbaas-adapter/pkg/mongodbService.go:852-862 | one element per field, in order |
| ShardKeys.StoredMeaning | services/dbaas-adapter/pkg/mongodbService.go:852-891 | a written key read back with any numeric type means the fields it was written for |
| ShardKeys.ReadBackMatches | services/dbaas-adapter/pkg/mongodbService.go:731-741 | round trip: a key written for one field list is exact for exactly its prefixes and refinable to exactly its extensions |
| ShardKeys.HashedFieldCount | services/dbaas-adapter/pkg/mongodbService.go:864-872 | counts the hashed fields |
| ShardKeys.AtMostOneHashed | docs/public/installation_guide.md:1042-1042 | the count is at most one if and only if no two fields are hashed |
| ShardCatalog.ApplyExtends | services/dbaas-adapter/pkg/mongodbService.go:760-850 | one round only ever extends keys, whatever fails |
| ShardCatalog.KeysOnlyGrow | services/dbaas-adapter/pkg/mongodbService.go:625-655 | between any two points of any run every key is a prefix of its later self, failing commands and repeated collections included |
| ShardCatalog.RoundSatisfies | services/dbaas-adapter/pkg/mongodbService.go:55-89 | a round without a reported error satisfies its request if and only if it was satisfied before or the command was carried out |
| ShardCatalog.RoundStopsIff | services/dbaas-adapter/pkg/mongodbService.go:760-829 | exactly when a round reports success, and that a failure before the last command leaves everything as it was |
| ShardCatalog.FailureCanBeMasked | services/dbaas-adapter/pkg/mongodbService.go:81-88 | a run that reports success without sharding the collection |
| ShardCatalog.SuccessSatisfiesAll | services/dbaas-adapter/pkg/mongodbService.go:625-655 | if commands are carried out and the run reports no error, every request is a prefix of the final key |
| ShardCatalog.SatisfiedIff | services/dbaas-adapter/pkg/mongodbService.go:625-655 | after a run without a reported error a request is satisfied if and only if it was before, or some request of the list that extends it had its command carried out |
| ShardCatalog.KeyIsOldOrAsked | services/dbaas-adapter/pkg/mongodbService.go:625-655 | after some rounds a key is the one there was or that of a request |
| ShardCatalog.GetsThroughIff | docs/public/installation_guide.md:1042-1053 | if nothing fails a list gets through if and only if no request has two hashed fields and all keys for one collection, old and asked for, are prefixes of each other |
| ShardCatalog.RunMeans | services/dbaas-adapter/pkg/mongodbService.go:625-655 | what a whole run comes to: refused enabling changes nothing, old keys are extended, success satisfies all requests whose commands were carried out, and consistent lists get through if nothing fails |
| ShardCatalog.SatisfiedRunIsNoOp | docs/public/installation_guide.md:1114-1114 | satisfied requests change neither keys nor background work, whatever fails |
| ShardCatalog.SecondRunIsNoOp | docs/public/installation_guide.md:1114-1114 | the same list a second time leaves the catalog of a first, carried-out run as it is |
| ShardCatalog.ShardedCollectionTable | docs/public/installation_guide.md:1046-1053 | for a sharded collection a request is accepted iff it has at most one hashed field and one key is a prefix of the other; the key becomes the longer one; a refusal changes nothing |
| ShardCatalog.RedistributionKeepsKeys | services/dbaas-adapter/pkg/mongodbService.go:905-920 | a redistribution keeps the growth of keys if and only if the key was not refined since |
| ShardCatalog.PendingStaysUpToDate | services/dbaas-adapter/pkg/mongodbService.go:831-846 | lists that name no collection twice leave only redistributions to the key in force |
| ShardCatalog.RedistributionsUpToDateIff | services/dbaas-adapter/pkg/mongodbService.go:831-846 | for every list, after a run in which nothing failed, all redistributions ask for the key in force if and only if no request that sharded a collection with documents is followed by a longer key for it |
| ShardCatalog.RedistributionInForce | services/dbaas-adapter/pkg/mongodbService.go:831-846 | while no started request is outgrown, at any point of the list a pending redistribution asks for what the key means |
| ShardCatalog.PlayIsUndisturbed | services/dbaas-adapter/pkg/mongodbService.go:625-655 | if no started request is outgrown, no interleaving of redistributions changes what keys mean, what is pending, or the success of the list |
| ShardCatalog.KeysOnlyGrowIff | services/dbaas-adapter/pkg/mongodbService.go:831-846 | keys only grow in every interleaving of a list and its redistributions, each taking effect once or not at all, if and only if no request that starts one is followed by a longer key for its collection |
| ShardCatalog.PendingAreTheStarts | services/dbaas-adapter/pkg/mongodbService.go:831-832 | the redistributions started are those of the first requests for unsharded collections with documents |
| ShardCatalog.NewKeyIsAsked | services/dbaas-adapter/pkg/mongodbService.go:625-655 | a collection that a run has sharded has the key of one of its requests |
| ShardCatalog.RedistributionUndoesRefinement | services/dbaas-adapter/pkg/mongodbService.go:831-846 | two requests that shard a collection with documents and then refine it leave a redistribution to the shorter key, which undoes the refinement |
| ShardCatalog.StoppedRun | services/dbaas-adapter/pkg/mongodbService.go:645-651 | after an error no later request has an effect |
| ShardCatalog.Service.RunWithGrants | services/dbaas-adapter/pkg/mongodbService.go:55-89 | any body takes effect only after an accepted grant, and the result is the revocation's, not the body's |
| ShardCatalog.Service.ShardNonShardedCollection | services/dbaas-adapter/pkg/mongodbService.go:760-850 | new catalog, background work and result are those of the specification, on every exit |
| ShardCatalog.Service.EnableShardingAndCreateCollection | services/dbaas-adapter/pkg/mongodbService.go:625-655 | without accepted enabling it fails and changes nothing; old keys are only extended; success with all commands carried out makes every requested key a prefix of the key in force; if nothing fails it succeeds if and only if the list is consistent |
| ShardCatalog.Service.ShardAll | services/dbaas-adapter/pkg/mongodbService.go:637-652 | the loop over the requests, up to the first error |
| Grants.HeldIffLastEffectiveIsGrant | services/dbaas-adapter/pkg/mongodbService.go:55-89 | the role is held if and only if some effective grant has no effective revocation after it |
| Grants.RevokeFollowsGrant | services/dbaas-adapter/pkg/mongodbService.go:63-70 | a section's revocation follows its grant |
| Grants.HeldOnlyWhileOpen | services/dbaas-adapter/pkg/mongodbService.go:784-846 | if grants that take effect are reported and revocations take effect, the role is held only while some section is open, for any interleaving |
| Grants.HeldThroughoutIff | services/dbaas-adapter/pkg/mongodbService.go:832-837 | a section keeps its role throughout if and only if no revocation at all takes effect inside it |
| Grants.OverlapLosesRole | services/dbaas-adapter/pkg/mongodbService.go:832-837 | two overlapping sections where the second is open without its role |
| Grants.LostGrantLeaks | services/dbaas-adapter/pkg/mongodbService.go:73-79 | a grant that takes effect but reports a failure is never revoked |
| SettingsParser.ParseRecord | services/dbaas-adapter/pkg/db_admin.go:633-671 | accepts exactly well-formed entries and reads them field by field |
| SettingsParser.ParseShardingSettings | services/dbaas-adapter/pkg/db_admin.go:620-676 | absent settings give none, one malformed part fails the whole request, otherwise one record per entry |
| SettingsParser.BadRequestSpoils | services/dbaas-adapter/pkg/db_admin.go:633-669 | one malformed entry anywhere fails the request |
| SettingsParser.SettingsByCase | services/dbaas-adapter/pkg/db_admin.go:620-676 | absent settings are none, settings that are not a list fail, and a list fails if and only if some entry is malformed |
| SettingsParser.MalformedIff | services/dbaas-adapter/pkg/db_admin.go:635-669 | an entry is refused if and only if it is no object, has no name, no key fields, an unnamed field, or two hashed ones |
| SettingsParser.FieldsReadIff | services/dbaas-adapter/pkg/db_admin.go:651-666 | fields are read in order, and only the boolean true marks one as hashed |
| SettingsParser.RoundTrip | services/dbaas-adapter/pkg/db_admin.go:620-676 | every list of valid requests can be sent and arrives unchanged |
| SettingsParser.OnlyValidRequests | services/dbaas-adapter/pkg/db_admin.go:640-669 | only valid requests come through: named, with fields, at most one hashed |
| Health.GetReplicaSetStatus | operator/pkg/utils/mongo_helper.go:806-858 | the status is decided by the numbers of PRIMARY and SECONDARY; no pods give no status and no error |
| Health.UpIffAllHealthy | operator/pkg/utils/mongo_helper.go:842-857 | with at most as many states as hosts, Up means exactly one PRIMARY and all others SECONDARY (active), or all SECONDARY but for at most one PRIMARY; no member missing |
| Health.DownIffRoleIsMissing | operator/pkg/utils/mongo_helper.go:842-857 | Down means nobody is PRIMARY (active) or nobody is SECONDARY (otherwise), and Degraded is what is neither Down nor Up |
| Health.AtMostOneStatePerHost | operator/pkg/utils/const.go:173-173 | for a replica set that lists no member twice the status query reports at most as many states as hosts |
| Health.UpIffReportedHealthy | operator/pkg/utils/mongo_helper.go:813-857 | so for whatever members report, Up means exactly one PRIMARY and all others SECONDARY (active), or all SECONDARY but for at most one PRIMARY |
| Health.ReadChannel | operator/pkg/utils/mongo_helper.go:905-911 | whatever the arrival order, a failure is seen iff some gather failed, and each result lands at its shard |
| Health.GetClusterStatus | operator/pkg/utils/mongo_helper.go:860-956 | the answer is a function of the gathered results, independent of the order in which goroutines finish |
| Health.ClusterUpIff | operator/pkg/utils/mongo_helper.go:923-952 | a sharded cluster is Up iff no gather failed, there are shards and config servers, the config set is Up, no shard is Down and, if active, a mongos pod runs |
| Health.ClusterDegradedIff | operator/pkg/utils/mongo_helper.go:923-952 | when a sharded cluster is Degraded, when an error comes with the answer, and that there are no other answers than Up, Degraded and Down |
| Health.UnshardedIsFirstShard | operator/pkg/utils/mongo_helper.go:905-954 | without sharding the answer is the status of the first shard; a failed gather answers Down, no shard panics |
| Health.UpDespiteDegradedShards | operator/pkg/utils/mongo_helper.go:946-950 | it is Up even if all shards are Degraded or without pods |
| OplogResize.RunOnPrimary | operator/pkg/utils/mongo_helper.go:974-990 | a lag check has the output or error of the last try that found a primary; if none did it was not issued, and an empty output without an error is reported |
| OplogResize.ResizeAndCheck | operator/pkg/utils/mongo_helper.go:117-134 | resize and then check, stopping at the first that fails |
| OplogResize.ResizePass | operator/pkg/utils/mongo_helper.go:115-136 | one of the two loops: appends its commands, or a prefix of them that ends in a failed one |
| OplogResize.UpdateOplogSize | operator/pkg/utils/mongo_helper.go:112-159 | every run is a prefix of the script in which all commands but the last passed, and touches only items of another size; success means every item of another size was resized and no check answered false; failure means the last command reported an error or answered false |
| OplogResize.NeedsResize | operator/pkg/mongodb/cnf_step.go:240-251 | true if and only if some item has another size, and if and only if a run would issue a command |
| OplogResize.PassIsPaired | operator/pkg/utils/mongo_helper.go:115-156 | a pass touches differing items of its kind only, in order, each resize followed by its check |
| OplogResize.TouchedOnce | operator/pkg/utils/mongo_helper.go:112-159 | on every run no item is resized twice and matching items are never touched |
| OplogResize.CompleteRunResizesAll | operator/pkg/utils/mongo_helper.go:112-159 | a complete run resized every differing item exactly once, and the code accepted what it was told of the check right after it |
| OplogResize.SecondariesFirst | operator/pkg/utils/mongo_helper.go:114-156 | on every run, error exits included, a primary is resized only after every differing secondary was resized and its lag check, issued or not, did not stop the run |
| OplogResize.NegativePassesIff | operator/pkg/utils/mongo_helper.go:132-154 | a negative answer passes its check if and only if there is white space around it |
| OplogResize.NegativeStops | operator/pkg/utils/mongo_helper.go:132-154 | on every run a negative answer without white space around it is the last command |
| OplogResize.LineEndsOpenTheGates | operator/pkg/utils/mongo_helper.go:127-154 | if outputs of issued commands end in a line end, a run stops only at a command that reported an error, and every negative answer passes |
| OplogResize.BareGateStopsNegatives | operator/pkg/utils/mongo_helper.go:114-156 | if outputs have no white space around them, no secondary with a negative lag check is passed over before a primary is resized; the check may not have been issued |
| OplogResize.MissingChecksPass | operator/pkg/utils/mongo_helper.go:974-990 | for every report there is a run that resizes all items, primaries included, and passes, with no lag check issued and no output a trimmed comparison would stop |
| OplogResize.ConfirmedIffAnswered | operator/pkg/utils/mongo_helper.go:126-134 | on every run all lag checks passed were issued and answered true if and only if all were answered true or false |
| OplogResize.OwnResizeBefore | operator/pkg/utils/mongo_helper.go:115-136 | on every run a lag check is that of a differing secondary and directly follows its resize |
| OplogResize.SecondariesFirstInTruth | operator/pkg/utils/mongo_helper.go:114-156 | on every run, error exits included, each differing secondary was resized and then confirmed by an answer true before a primary is resized, if and only if all lag checks before were answered true or false |
| ClientCache.Cache.GetMongoClient | services/dbaas-adapter/pkg/mongoClient.go:24-46 | an existing client is returned and nothing changes, otherwise a new one is appended, or nothing changes on failure |
| ClientCache.Cache.DisconnectMongoClient | services/dbaas-adapter/pkg/mongoClient.go:48-67 | removes exactly the entry of the configuration, keeps the rest in order, disconnects that client and no other |
| ClientCache.SpliceIsWithout | services/dbaas-adapter/pkg/mongoClient.go:59-63 | splicing at the found index leaves exactly the entries of other configurations |
| ClientCache.RefinesMap | services/dbaas-adapter/pkg/mongoClient.go:24-67 | after any calls there is one entry per configuration at most, and the slice holds what a map would |
| ClientCache.SameUntilDisconnected | services/dbaas-adapter/pkg/mongoClient.go:32-36 | a configuration keeps its client until it is disconnected itself |
| ClientCache.ServedIff | services/dbaas-adapter/pkg/mongoClient.go:24-67 | a client is served if and only if a get created it when there was none and no disconnect followed |

## Left out

- Failing calls are free choices; the `reliable` parameter of the `Expansion` and `DisasterRecovery` methods rules them out, and no probability or timing is attached to them.
- Sleeps, polling intervals, timeouts and the number of seconds between retries: a gate passes or fails, a command succeeds or fails. The unbounded wait of the compaction command is not modelled.
- Kubernetes objects beyond replica counts and names; TLS, secrets, labels, affinities, container arguments.
- The operator-core library is not part of this model. Steps are taken to run in order, a failing one to end the run, and the PVC list to have as many distinct, non-empty names as computed.
- Elements with other than one entry: Go takes some key and some value of a map; the model's elements are one-entry maps.
- Go format strings in `GetReplicaSetHostNames`: a percent sign in a domain or namespace would be read as a verb; the model concatenates.
- Negative sizes in the host-name builders, where Go's `make` panics; sizes of `Hosts.HostNames` are natural numbers.
- Server-side rules of `rs.reconfig`, `rs.add`, `refineCollectionShardKey` and `reshardCollection`, and the arbiter sets after a DR upgrade: the model installs what the command names, at the moment it takes effect. The reshard command is taken to install the key it is given.
- Two service calls that change the same collection at once; only role grants are modelled concurrently.
- The steps of `DRBuilder` that do not change replica-set configurations: scaling, `UpdateShardsStep`, restarts, lag and status waits, and the disable mode.
- Parsing of shell output, quoting, ANSI codes; each remote command is a typed step with an outcome.
- What changes replica counts between two restarts. The single schema's groups are whatever the pods' owners are.
- Labelled nodes whose name is empty; `Named` leaves them out.
- The oplog report is given; `GetOplogSizes` and compaction are not modelled.
- Aliasing in the client cache: `reflect.DeepEqual` is equality of configuration values, and only `DisconnectMongoClient` disconnects clients.
- Users, roles, databases and HTTP handlers of the adapter: thin sequences of server commands.
