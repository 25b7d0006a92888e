# vSAN lab control plane, modelled in Dafny

The lab is a single-page simulation of a VMware vSAN cluster. The hosts, disks
and virtual machines live in the state of one component (`src/App.tsx`), and
its buttons run handlers that rewrite that state. The handlers are:

- cluster set-up: scenario and architecture, host selection and join,
  VMkernel traffic, disk claims, the two wizard checks;
- the storage-policy selector and VM deployment, including the object layout
  of each policy and the space a VM consumes;
- DRS load balancing;
- maintenance mode, entered with vMotion evacuation in either mode (Ensure
  Accessibility or Full Data Evacuation) and left by the inline exit button.
  The component also defines an `exitMaintenanceMode` handler that no element
  calls; the model covers it as well;
- the lifecycle upgrade and host expansion;
- failure injection (host, network partition, disk), with vSphere HA
  restarts;
- recovery, with its resync meter.

The project models these handlers. Its lemmas and contracts state what each
handler does to the hosts, the VMs and the cluster health, as listed under
"## Model"; what they leave out is listed under "## Left out".

Layout, one module per concern:

| file | module | what it holds |
|---|---|---|
| `types.dfy` | `Types` | hosts, disks, VMs, policies, outcomes, `find`/`filter` |
| `progress.dfy` | `Progress` | the `for (i = 0; i <= 100; i += stride)` progress meters |
| `topology.dfy` | `Topology` | generated hosts, selection, join, VMkernel toggle, expansion, upgrade guard |
| `capacity.dfy` | `Capacity` | raw and used datastore capacity |
| `claims.dfy` | `Claims` | disk claims and the two wizard checks |
| `placement.dfy` | `Placement` | VM ids, object layout, space charged, the twelve-VM deployment |
| `relocation.dfy` | `Relocation` | the round-robin move of the VMs of one host (vMotion and HA) |
| `rebalancer.dfy` | `Rebalancer` | the DRS pass |
| `faults.dfy` | `Faults` | failure injection, recovery, and their laws |
| `maintenance.dfy` | `Maintenance` | entering and leaving maintenance mode |
| `policies.dfy` | `Policies` | the policy selector |
| `cluster.dfy` | `ClusterModel` | the component's state as a class, one method per handler |

The modelling has four parts:

- **Pure definitions.** Each handler's effect is a pure function: on the
  host list, on a `Snapshot` (hosts, VMs, health), or on a `LabState` (every
  piece of state the component keeps).
- **Loop methods.** The handlers' loops are methods whose `ensures` ties the
  result to those functions. These are the capacity sums, the VM deployment,
  the round-robin relocation, the DRS pass and the host generator.
- **The class.** `ClusterModel.Cluster` holds the component's state as
  fields. Each handler is a method with `modifies this`, and its `ensures`
  gives the new `State()` as a function of `old(State())`.
- **The invariant.** `ValidState` holds between handlers. It says:
  - host ids are unique;
  - no maintenance, upgrade or resync is under way;
  - every meter is within 0..100.

  A lemma per handler shows that the handler keeps it.

A handler that reports an error and returns returns an `Outcome`, one of:

- `Applied`;
- `Skipped`, a silent return;
- `Rejected(reason)`, where the source sets an error message or logs an error.

The message text itself is not modelled.

## Model

| member | source | states |
|---|---|---|
| Types.FindHost | src/App.tsx:594 | `hosts.find(h => h.id === id)`: the index of the first host with the id; None exactly when no host has it |
| Types.FindDisk | src/App.tsx:294 | the index of the first disk with the id; None exactly when no disk has it |
| Types.FindDiskOwner | src/App.tsx:701 | the first host owning a disk with the id; None exactly when no host has one |
| Types.FindHostUnique | src/App.tsx:594 | with unique ids, looking up a host's own id finds that host |
| Types.ShortName | src/App.tsx:334 | `name.split('.')[0]`: the longest dot-free prefix of the name, that is a prefix with no dot in it that is either the whole name or followed by a dot |
| Types.Filter | src/App.tsx:331 | `Array.prototype.filter`: no longer than the input; every element kept satisfies the predicate and comes from the input; every satisfying element of the input is kept |
| Types.FilterAppend | src/App.tsx:331 | filtering distributes over concatenation |
| Types.FilterSingleton | src/App.tsx:331 | a one-element filter keeps the element exactly when it satisfies the predicate |
| Types.FilterInOrder | src/App.tsx:331 | the filter is the concatenation of the one-element filters, so the kept elements stay in order; each satisfying value keeps its multiplicity and every other value has none |
| Types.FilterEmpty | src/App.tsx:333 | a filter is empty exactly when no element satisfies the predicate |
| Types.FilterKeepsUniqueIds | src/App.tsx:603 | filtering a host list keeps its ids unique |
| Types.SameIdsKeepUnique | src/App.tsx:285-287 | a host-list rewrite that keeps the ids in place keeps them unique |
| Topology.GenerateInitialHosts | src/App.tsx:64-139 | the push loop yields exactly the hosts `InitialHosts` describes |
| Topology.InitialHostsShape | src/App.tsx:64-139 | seven data hosts in STANDARD; two data hosts and then the witness in ROBO; unique ids; every host Unmanaged, VMkernel off, not isolated, on the initial version, with unclaimed, healthy disks of distinct ids |
| Topology.DataHostPristine | src/App.tsx:70-121 | a generated data host is pristine and not a witness; it has two NVMe disks in ROBO ESA and three disks otherwise |
| Topology.DataHostIds | src/App.tsx:85-125 | generated data hosts have pairwise different ids, none of them the witness id |
| Topology.ToggleSelectionLaw | src/App.tsx:248-253 | toggling flips the id's membership in the selection and changes no other id; toggling an unselected id twice restores the selection |
| Topology.JoinSelected | src/App.tsx:276-278 | joining keeps every host's id in place |
| Topology.JoinSelectedEffect | src/App.tsx:276-278 | after a join, a host is Connected exactly when it was Connected before or is selected; only the status changes |
| Topology.ToggleVmk | src/App.tsx:284-289 | the named host's VMkernel flag flips; nothing else of it changes, and every other host is unchanged |
| Topology.ToggleVmkTwice | src/App.tsx:284-289 | the VMkernel toggle is an involution |
| Topology.ExpandHost | src/App.tsx:423-430 | expansion keeps the ids in place |
| Topology.ExpandHostEffect | src/App.tsx:420-430 | the named host becomes Connected with its VMkernel off and three unclaimed, healthy disks of distinct ids, the rest of it unchanged; every other host is unchanged; expanding twice is expanding once |
| Topology.ExpansionDisksShape | src/App.tsx:421-428 | an expanded host gets three distinct unclaimed healthy disks: the STANDARD template disks of the same host id, or host h1's when the template lacks that id |
| Topology.SetVersion | src/App.tsx:412-414 | the version rewrite keeps the ids |
| Topology.SetStatus | src/App.tsx:640 | the status rewrite keeps the ids |
| Topology.UpgradeLaw | src/App.tsx:396-418 | an upgrade is admitted exactly for an existing host in Maintenance, and then only that host's version becomes the target version |
| Capacity.ComputeTotalCapacity | src/App.tsx:180-192 | the nested forEach totals the claimed Capacity/StoragePool disks of the Connected or Maintenance non-witness hosts, as `RawCapacityGB` |
| Capacity.ComputeUsedCapacity | src/App.tsx:194-198 | the forEach totals `usedSpaceGB` over the VMs, as `UsedCapacityGB` |
| Capacity.RawCapacityAppend | src/App.tsx:182-190 | the raw capacity is additive over any split of the host list |
| Capacity.RawCapacityPointwise | src/App.tsx:182-190 | host lists that contribute the same amount host by host have the same total |
| Capacity.RawCapacityIgnoresIdle | src/App.tsx:183 | Unmanaged, Disconnected and witness hosts contribute nothing |
| Capacity.DisksRawIgnoresHealth | src/App.tsx:184-188 | disk health never enters the raw figure: a Failed capacity disk still counts |
| Capacity.UsedCapacityAppend | src/App.tsx:196 | the used figure is additive over any split of the VM list |
| Claims.ClaimOnHost | src/App.tsx:292-326 | a claim never changes the host's id |
| Claims.ClaimDisk | src/App.tsx:291-328 | claimDisk touches only the named host and keeps the ids |
| Claims.ClaimReleases | src/App.tsx:302-303 | asking a data disk for the role it already has releases it to Unclaimed |
| Claims.ClaimTwiceIsIdentity | src/App.tsx:302-323 | the same claim twice on an unclaimed data disk restores the host, whether the first claim was admitted or refused |
| Claims.ClaimRejections | src/App.tsx:305-318 | both directions: a claim is refused exactly for a second OSA Cache disk, an SSD as OSA Capacity or an HDD in the ESA pool, unless it releases; a refused claim changes nothing |
| Claims.ClaimFrame | src/App.tsx:320-323 | an admitted data-host claim changes only the named disk's claim |
| Claims.WitnessClaim | src/App.tsx:297-300 | the witness ignores every role but Witness; for Witness it flips the claim of all of its disks |
| Claims.ServicesCheckIff | src/App.tsx:330-339 | the services step passes exactly when every Connected host has its VMkernel on |
| Claims.FindWitness | src/App.tsx:343 | `hosts.find(h => h.isWitness)`: the first witness; None exactly when there is none |
| Claims.DisksCheckIff | src/App.tsx:341-376 | STANDARD passes exactly when every Connected VMkernel-enabled host has a valid disk group (OSA: one Cache and some Capacity; ESA: at least two StoragePool); ROBO passes exactly when the first witness is not Connected or holds a Witness claim |
| Claims.OneCacheDisk | src/App.tsx:354-356 | the count rule "exactly one Cache disk" holds exactly when there is a Cache disk and no other disk is Cache |
| Placement.NatToString | src/App.tsx:570 | `String(n)` is a non-empty string of decimal digits |
| Placement.ParseRendered | src/App.tsx:523 | `parseInt` of `String(n)` gives back n |
| Placement.VmIdOrdinal | src/App.tsx:523 | the ordinal read back from `vm${i+1}` is i + 1 |
| Placement.VmIdsDistinct | src/App.tsx:570 | the generated VM ids are pairwise different |
| Placement.PadTwo | src/App.tsx:578 | `padStart(2, '0')`: a string of two or more characters is kept; a shorter one gets zeros in front up to two characters |
| Placement.First | src/App.tsx:507-509 | `Array.prototype.find`: the first element satisfying the predicate; None exactly when there is none |
| Placement.StandardLayoutHosts | src/App.tsx:518-540 | host of each object: VM Home on the first active host; every other object at offset `(ordinal + offset) % n` |
| Placement.StandardLayout | src/App.tsx:518-540 | nothing below three active hosts. Otherwise VM Home on the first active host, then four replicas and three witnesses for FTT3 on seven or more hosts, or two replicas and one witness. The non-home objects sit on pairwise different active hosts |
| Placement.LayoutOffsetsDistinct | src/App.tsx:524 | the offsets of one layout land on pairwise different hosts modulo the number of active hosts |
| Placement.RoboLayout | src/App.tsx:506-516 | two-node layout: four objects exactly when node 1, node 2 and the witness are active. VM Home and replica 1 go on node 1, replica 2 on node 2, the witness object on the witness; nothing otherwise |
| Placement.HomeMayShareReplicaHost | src/App.tsx:525-538 | VM Home is not kept apart from the replicas: on three hosts vm2 has VM Home and replica 1 on the same host |
| Placement.UsedSpaceIsCeiling | src/App.tsx:585 | `Math.ceil(size × multiplier)`: the least whole number of GB covering the scaled size |
| Placement.MirrorSpace | src/App.tsx:561-563 | mirroring charges exactly FTT + 1 copies |
| Placement.ErasureSpace | src/App.tsx:564-567 | RAID-5 charges 1.33 and RAID-6 1.5 times each table size, rounded up |
| Placement.BuildVms | src/App.tsx:569-587 | the loop of createVMs, with its early break, builds exactly `DeployedVms` |
| Placement.NewVmShape | src/App.tsx:570-586 | each deployed VM has its generated id and name; it is PoweredOn and Compliant; it runs on compute host i mod their number, a non-witness active host; it gets the object layout of its id, its size from the table, and its policy's space |
| Placement.DeployedVmsShape | src/App.tsx:569-587 | twelve VMs with distinct ids, or none exactly when every active host is a witness |
| Placement.DeployedUsedTotal | src/App.tsx:557-587 | datastore use of a full deployment: 5100, 3393, 7650, 3825 or 10200 GB by policy |
| Placement.TableTotals | src/App.tsx:558 | the size table's total under each policy |
| Relocation.Relocate | src/App.tsx:614-622 | the relocation keeps the number of VMs |
| Relocation.RelocateVms | src/App.tsx:613-622 | the map with its `nextHostIndex` counter computes `Relocate` |
| Relocation.RelocateAt | src/App.tsx:614-622 | position by position: a VM of the host moves to target `count % n`, where count is how many of the host's VMs come before it; any other VM stays |
| Relocation.RelocateEmptiesHost | src/App.tsx:614-622 | afterwards no VM runs on the emptied host; the moved VMs all land on targets |
| Relocation.RelocateSpreads | src/App.tsx:614-622 | with distinct targets and no more VMs than targets, no two moved VMs share a host |
| Relocation.CountOnAppend | src/App.tsx:449 | the VM count of a host is additive over a split of the VM list |
| Relocation.MarkObjectsOn | src/App.tsx:633-638 | only compliance changes: a VM with an object on the host becomes NonCompliant, any other VM is unchanged |
| Relocation.MarkObjectsOnTwice | src/App.tsx:633-638 | marking the same host twice is marking it once |
| Relocation.PowerOffOn | src/App.tsx:684-696 | with no survivor nothing moves: a VM of the host is PoweredOff and NonCompliant; another VM keeps its host and power state and loses compliance exactly when it has an object on the host |
| Relocation.AllCompliant | src/App.tsx:800 | every VM becomes Compliant and nothing else of it changes |
| Relocation.ResyncClearsMarks | src/App.tsx:800 | a resync erases any earlier marking of objects, and a second resync changes nothing |
| Rebalancer.InsertDescProperties | src/App.tsx:453 | an insertion keeps the records (as a multiset) and keeps descending order |
| Rebalancer.SortDescProperties | src/App.tsx:453 | the sort is a permutation ordered by descending count |
| Rebalancer.InsertDescStable | src/App.tsx:453 | inserting a record keeps the records of each count in order, with the new one after those of its count |
| Rebalancer.SortDescStable | src/App.tsx:453 | the sort is stable: for every count, the records of that count keep their relative order |
| Rebalancer.SortDescKeepsIndices | src/App.tsx:475 | re-sorting never invents a record |
| Rebalancer.PickTargetSpec | src/App.tsx:463-464 | a target exists exactly when some record counts less than the source; it is a least-counted such record |
| Rebalancer.PickTargetBelow | src/App.tsx:463 | the picked target counts less than the source |
| Rebalancer.PickTargetInOrder | src/App.tsx:463-464 | the picked target is a real record |
| Rebalancer.Move | src/App.tsx:466-470 | one migration keeps the working state well formed; the source's count drops by one and the target's rises by one, with every other count and pool unchanged; the popped VM, with the target's id, is appended to the moved list; the source's pool loses its last VM and the records are re-sorted by the new counts |
| Rebalancer.Inner | src/App.tsx:462-481 | the inner while loop keeps the working state well formed |
| Rebalancer.InnerStops | src/App.tsx:478-480 | the inner loop stops without a move when the source is down to the initial minimum, has no target, or has no VM left to pop |
| Rebalancer.InnerMoves | src/App.tsx:465-478 | when a target and a VM exist, the loop moves one VM to a host with fewer VMs and goes on |
| Rebalancer.Outer | src/App.tsx:460-482 | the outer for loop keeps the working state well formed |
| Rebalancer.Start | src/App.tsx:448-453 | the initial pools, counts and sorted records are well formed |
| Rebalancer.DrsKeepsIndices | src/App.tsx:460-482 | every record the pass touches is one of the eligible hosts |
| Rebalancer.OuterExtends | src/App.tsx:468 | the pass only appends to the moved list |
| Rebalancer.DrsMovesIffUnbalanced | src/App.tsx:439-456 | both directions: DRS migrates a VM exactly when there are VMs, at least two eligible hosts, and max count > min count + 1 |
| Rebalancer.BalancedIsUntouched | src/App.tsx:483-487 | where DRS acts on nothing, the VM list is left as it was |
| Rebalancer.DrsMovesAreMigrations | src/App.tsx:466-468 | every migrated VM is a VM of the list that leaves an eligible host for another eligible host |
| Rebalancer.ApplyKeepsVms | src/App.tsx:484-487 | applying the moves keeps the set of VM ids, and each VM is either unchanged or a migrated copy |
| Rebalancer.RebalanceKeepsVms | src/App.tsx:438-491 | runDRS changes placement only: the same VM ids before and after |
| Rebalancer.PoolSize | src/App.tsx:449-452 | a host's pool holds exactly the VMs counted on it |
| Rebalancer.DrsCanLeaveImbalance | src/App.tsx:456-482 | a single pass need not balance: counts 4, 4, 0 end as 2, 4, 2 after two moves |
| Rebalancer.ImbalanceExampleExists | src/App.tsx:448-452 | a VM list with those counts exists |
| Rebalancer.Drain | src/App.tsx:462-481 | the inner while loop computes `Inner` |
| Rebalancer.RebalanceVms | src/App.tsx:438-491 | runDRS computes `Rebalance` |
| Faults.FttGuard | src/App.tsx:652-659 | outside ROBO, a host fault is refused exactly when FTT hosts are already lost |
| Faults.ButtonMatchesFttGuard | src/App.tsx:1086-1089 | an enabled failure button never meets the handler's FTT refusal |
| Faults.DiskOf | src/App.tsx:701-702 | the disk a request names, as a host index and a disk index: the first host that has a disk with the id, and the first such disk on it; None exactly when no host has one |
| Faults.FailHost | src/App.tsx:672-677 | the ids stay in place; only the named host changes: it becomes Disconnected, and also Isolated for a partition |
| Faults.HaRestartVms | src/App.tsx:680-698 | HA keeps the number of VMs; `Faults.HaRestartEffect` states its effect on each VM |
| Faults.FailDiskOn | src/App.tsx:712-716 | the ids stay in place; `Faults.FailDiskOnEffect` states the effect on the disk's host |
| Faults.LoseDiskGroupOn | src/App.tsx:732-736 | the ids stay in place; `Faults.LoseDiskGroupOnEffect` states the effect on the host |
| Faults.MarkVmsOn | src/App.tsx:750 | only compliance changes: a VM running on the host becomes NonCompliant, any other VM is unchanged |
| Faults.FailureGuards | src/App.tsx:648-659 | with no VMs the fault is refused; an over-FTT host fault is refused; a refused fault changes nothing |
| Faults.HostFaultAdmission | src/App.tsx:652-670 | both directions: outside ROBO a host or network fault is admitted exactly for an existing Connected host with two other Connected hosts, within FTT, with VMs deployed |
| Faults.DiskFaultAdmission | src/App.tsx:700-706 | both directions: a disk fault is admitted exactly for an existing Healthy disk on a Connected host, with VMs deployed |
| Faults.SurvivorsAreCompute | src/App.tsx:680 | the survivors are Connected data hosts, never the failed host |
| Faults.HostFaultEffect | src/App.tsx:660-699 | the host is Disconnected (and Isolated for a partition), every other host unchanged, health CRITICAL. The VMs become `HaRestartVms`, each as `HaRestartedAt` says: a VM of the host restarts PoweredOn and NonCompliant on a survivor, or stays on it PoweredOff and NonCompliant when there is none. Any other VM keeps its host and power state and becomes NonCompliant exactly when it has an object on the failed host. No VM changes identity |
| Faults.HaRestartEffect | src/App.tsx:680-698 | the vSphere HA map on its own: keeps the number of VMs, and every VM changes as `HaRestartedAt` says |
| Faults.HaRestartSpreads | src/App.tsx:688-691 | with no more VMs than survivors, no two restarted VMs share a host |
| Faults.OneDiskFaultEffect | src/App.tsx:711-727 | OSA capacity or ESA pool disk: health WARNING; that disk becomes Failed; every disk with another id, the rest of its host and every other host are unchanged. Exactly the VMs running on its host become NonCompliant, and nothing else of any VM changes |
| Faults.FailDiskOnEffect | src/App.tsx:711-724 | on the hosts alone: the disk becomes Failed; every disk with another id, the rest of its host and every other host are unchanged |
| Faults.CacheFaultEffect | src/App.tsx:728-748 | OSA cache disk: the whole disk group is lost and health is left as it was. The host becomes Disconnected with every disk Failed, the rest of it and every other host unchanged. Each VM changes as `LostGroupVmAt` says: a VM of the host restarts PoweredOn and NonCompliant on another Connected host, the witness included; any other VM becomes NonCompliant exactly when it has an object on the host. No VM stays on the host |
| Faults.LoseDiskGroupOnEffect | src/App.tsx:732-736 | on the hosts alone: the host becomes Disconnected with every disk Failed; the rest of it and every other host are unchanged |
| Faults.LostGroupVmsEffect | src/App.tsx:729-747 | the VM map of a lost disk group, whenever VMs of the host have some other Connected host to go to: each VM changes as `LostGroupVmAt` says and none is left on the host |
| Faults.OtherDiskFaultEffect | src/App.tsx:749-751 | any other disk fault changes only the compliance of the VMs on the disk's host |
| Faults.RecoveryGuards | src/App.tsx:756-764 | both directions: refused exactly during a resync; for a host or network repair, skipped exactly when there is nothing to repair; for a disk replacement, skipped exactly when the first host holding the disk is Connected and that disk is Healthy; a refusal changes nothing |
| Faults.HostRecoveryEffect | src/App.tsx:769-801 | exactly the named host reconnects with its partition healed; every VM becomes Compliant; health HEALTHY |
| Faults.DiskRecoveryEffect | src/App.tsx:772-801 | the disk's host reconnects and the disk heals. If the host was Disconnected, every claimed disk of it heals too. Every other disk, the rest of the host and every other host are unchanged; health HEALTHY |
| Faults.RecoverUndoesHostFault | src/App.tsx:645-802 | failing a Connected, unpartitioned host and recovering it restores the hosts; the cluster is HEALTHY and every VM Compliant |
| Faults.RecoverUndoesDiskFault | src/App.tsx:711-790 | failing a capacity or pool disk and replacing it restores the hosts |
| Faults.ReplaceUndoesFailDisk | src/App.tsx:712-787 | on the hosts alone: replacing a failed disk undoes its failure |
| Faults.CacheRecoveryLeavesUnclaimedFailed | src/App.tsx:732-787 | replacing the cache disk of a lost disk group leaves the group's Unclaimed disks Failed |
| Maintenance.EvacuateVms | src/App.tsx:613-622 | the vMotion evacuation keeps the number of VMs |
| Maintenance.EnteredVms | src/App.tsx:613-639 | the finished handler keeps the number of VMs |
| Maintenance.EnterGuards | src/App.tsx:594-607 | both directions: ignored exactly for an unknown host; refused exactly for a data host with no other Connected data host; either way nothing changes |
| Maintenance.EnterWitness | src/App.tsx:596-601 | a witness goes straight to Maintenance, no VM changes, and the cluster turns WARNING |
| Maintenance.EnterEvacuates | src/App.tsx:603-642 | an admitted data host ends in Maintenance, with every other host unchanged and health WARNING. Every VM of the host moves to another Connected data host; every other VM keeps its host; no VM changes identity or power state |
| Maintenance.EvacuatedAt | src/App.tsx:614-621 | the j-th VM after vMotion: moved and Compliant if it ran on the host, otherwise unchanged |
| Maintenance.EnteredAt | src/App.tsx:624-639 | the j-th VM once the handler has finished, in each mode |
| Maintenance.EnterCompliance | src/App.tsx:614-639 | compliance left behind. Full Data Evacuation leaves an evacuated VM Compliant and any other VM as it was. Ensure Accessibility in addition makes any VM with an object on the host NonCompliant |
| Maintenance.EvacuationSpreads | src/App.tsx:616-617 | with no more VMs than targets, no two evacuated VMs share a host |
| Maintenance.ExitGuardIsStale | src/App.tsx:804-807 | in the uncalled exitMaintenanceMode, the recovery runs on the snapshot from before the status change, where it is admitted; on the new hosts it would have been skipped |
| Maintenance.ExitEffect | src/App.tsx:804-807 | for the uncalled exitMaintenanceMode: outside a resync the host is Connected with its partition healed, every VM Compliant, health HEALTHY |
| Maintenance.InlineExitEffect | src/App.tsx:1109 | the direct exit button sets the host Connected and health HEALTHY. VM compliance is untouched and a partition stays unhealed |
| Maintenance.InlineExitUndoesEnter | src/App.tsx:1109 | entering and then leaving by the direct button restores the hosts of a Connected host |
| Policies.RequiredHostsByFtt | src/App.tsx:983-989 | the table needs 2·FTT+1 hosts for mirroring and 2·FTT+2 for erasure coding, always more than FTT+1 |
| Policies.PolicyTableOrder | src/App.tsx:983-998 | the requirements read 3..7 down the table, so an available policy makes every earlier one available |
| Policies.CountedPointwise | src/App.tsx:981 | only the count of Connected or Maintenance hosts matters |
| Policies.MaintenanceKeepsPolicies | src/App.tsx:981-998 | moving a host between Connected and Maintenance changes no policy's availability |
| Policies.DisconnectLowersCount | src/App.tsx:981 | disconnecting a counted host lowers the count by exactly one |
| Progress.RampClosedForm | src/App.tsx:791 | the meter's i-th value is i·stride, every value is at most the limit, and the next one would pass it |
| Progress.RampRisesByStride | src/App.tsx:791 | each step rises by exactly the stride |
| Progress.ResyncSteps | src/App.tsx:791-797 | the resync meter shows 0, 10, …, 100 |
| Progress.EvacuationSteps | src/App.tsx:626-629 | the evacuation meter shows 0, 20, …, 100 |
| ClusterModel.InitialValid | src/App.tsx:143-164 | the lab starts in a valid state |
| ClusterModel.HostsUpdateKeepsValid | src/App.tsx:285-287 | every handler that only rewrites hosts with the ids in place keeps the invariant |
| ClusterModel.EnterDataState | src/App.tsx:603-642 | the state after an admitted data host enters maintenance |
| ClusterModel.EnterKeepsValid | src/App.tsx:593-643 | enterMaintenanceMode keeps the invariant |
| ClusterModel.FailureKeepsValid | src/App.tsx:645-753 | simulateFailure keeps the invariant |
| ClusterModel.RecoveryKeepsValid | src/App.tsx:755-802 | simulateRecovery keeps the invariant |
| ClusterModel.ExitKeepsValid | src/App.tsx:804-808 | exitMaintenanceMode, which no element calls, keeps the invariant |
| ClusterModel.ResyncRefusalUnreachable | src/App.tsx:756-759 | between handlers no resync runs, so the "resync in progress" refusal is never met; the uncalled exitMaintenanceMode would end HEALTHY unless the recovery is skipped |
| ClusterModel.Cluster.constructor | src/App.tsx:203-240 | resetLab, then a scenario and an architecture: the initial state, valid |
| ClusterModel.Cluster.RunMeter | src/App.tsx:791-798 | the progress loop shows the ramp 0..100 and leaves the meter at 100, nothing else changed |
| ClusterModel.Cluster.ToggleHostSelection | src/App.tsx:248-253 | only the selection changes, to the toggled one |
| ClusterModel.Cluster.AddSelectedHosts | src/App.tsx:255-282 | the selection verdict (ROBO needs the witness and two data hosts, STANDARD three hosts); on success the selected hosts join |
| ClusterModel.Cluster.ToggleVmkConfig | src/App.tsx:284-289 | only the hosts change, by the VMkernel toggle |
| ClusterModel.Cluster.ClaimDiskRole | src/App.tsx:291-328 | the claim outcome, and only the hosts change |
| ClusterModel.Cluster.ValidateServices | src/App.tsx:330-340 | reports the services check and changes nothing |
| ClusterModel.Cluster.ValidateDisks | src/App.tsx:341-376 | reports the disk check and changes nothing |
| ClusterModel.Cluster.CalculateTotalCapacity | src/App.tsx:180-192 | the raw capacity in GB |
| ClusterModel.Cluster.CalculateUsedCapacity | src/App.tsx:194-198 | the used capacity in GB |
| ClusterModel.Cluster.SelectPolicy | src/App.tsx:998-1003 | a policy is selected exactly when it is available; otherwise nothing changes |
| ClusterModel.Cluster.UpgradeHost | src/App.tsx:396-418 | refused unless the host is in Maintenance; otherwise the meter runs 0..100 and only the version changes, with the meter back at 0 |
| ClusterModel.Cluster.AddUnmanagedHost | src/App.tsx:420-435 | only the hosts change, by the expansion |
| ClusterModel.Cluster.RunDrs | src/App.tsx:438-491 | only the VMs change, to the DRS result |
| ClusterModel.Cluster.CreateVms | src/App.tsx:543-591 | refused below three active hosts; otherwise the VMs become the deployment |
| ClusterModel.Cluster.EnterMaintenanceMode | src/App.tsx:593-643 | the enter verdict; the evacuation meter runs only for an admitted data host in Full Data Evacuation; the state becomes `EnterState`; valid |
| ClusterModel.Cluster.Evacuate | src/App.tsx:603-642 | the evacuation path, step by step, ending in the state `EnterDataState` describes |
| ClusterModel.Cluster.BeginEvacuation | src/App.tsx:603-622 | with a host to evacuate to, the maintenance banner goes up (health RESYNCING, both meters at 0, the host recorded as the one entering) and the VMs become those `EvacuateVms` describes; no other field changes |
| ClusterModel.Cluster.FinishMaintenance | src/App.tsx:640-642 | the host's status becomes Maintenance, the banner comes down and health is WARNING; no other field changes |
| ClusterModel.Cluster.SimulateFailure | src/App.tsx:645-753 | the failure verdict; the state becomes `FailureState`; valid |
| ClusterModel.Cluster.FailHostApplied | src/App.tsx:680-699 | an admitted host or network fault: the hosts become `FailHost`, the VMs `HaRestartVms`, health CRITICAL; no other field changes |
| ClusterModel.ComputeDiskFailure | src/App.tsx:700-752 | the disk branch's new hosts, VMs and health are exactly the snapshot `Faults.DiskFailure` describes |
| ClusterModel.Cluster.FailDiskApplied | src/App.tsx:700-752 | an admitted disk fault sets hosts, VMs and health to `Faults.DiskFailure` of the old ones; no other field changes |
| ClusterModel.Cluster.Resync | src/App.tsx:765-801 | the repair, the resync meter 0..100, then HEALTHY with every VM Compliant |
| ClusterModel.Cluster.StartResync | src/App.tsx:765-790 | the repair `RepairHosts` is applied and the resync banner goes up at 0; no other field changes |
| ClusterModel.Cluster.FinishResync | src/App.tsx:798-800 | the meter ends at 100, health HEALTHY, every VM Compliant; no other field changes |
| ClusterModel.Cluster.SimulateRecovery | src/App.tsx:755-802 | the recovery verdict; the meter runs exactly when admitted; the state becomes `RecoveryState`; valid |
| ClusterModel.Cluster.ExitMaintenanceMode | src/App.tsx:804-808 | for the handler no element calls: the recovery verdict is taken on the state before the status change; the state becomes `ExitState`; valid |
| ClusterModel.Cluster.InlineExitMaintenance | src/App.tsx:1109 | the host Connected and health HEALTHY, nothing else; valid |

## Notes on the source

Where a plain reading of the lab's behaviour and the code differ, the model
follows the code:

- **ROBO disk check.** In ROBO, `validateDisksAndProceed` checks only the
  witness metadata claim. It does not check the data hosts' disk groups
  (`Claims.DisksCheckIff`).
- **Failed disks still count.** The raw capacity counts a Failed disk as long
  as it is claimed and its host is Connected or in Maintenance
  (`Capacity.DisksRawIgnoresHealth`).
- **Disk faults.**
  - A localized disk fault marks the VMs by the host they run on, not by
    where their objects are (`Faults.OneDiskFaultEffect`,
    `Faults.OtherDiskFaultEffect`).
  - A lost OSA disk group never sets CRITICAL, although its log line says so
    (`Faults.CacheFaultEffect`).
  - Replacing the cache disk of a lost group leaves the group's Unclaimed
    disks Failed (`Faults.CacheRecoveryLeavesUnclaimedFailed`).
- **VM Home placement.** In STANDARD, VM Home always sits on the first active
  host and may share it with a replica (`Placement.HomeMayShareReplicaHost`).
- **Exit paths.**
  - The only exit the page offers is the inline "Salir Mantenimiento" button
    (`src/App.tsx:1109`). It heals neither compliance nor a partition
    (`Maintenance.InlineExitEffect`).
  - `exitMaintenanceMode` (`src/App.tsx:804`) is defined but never called.
    It would call `simulateRecovery`, which reads the hosts from before the
    status change, so the recovery would be admitted for a host in
    Maintenance (`Maintenance.ExitGuardIsStale`). Because nothing calls the
    handler, that stale recovery cannot be reached from the page.
- **Policy count.** The policy selector counts the witness appliance among the
  hosts (`Policies.Counted`).
- **DRS.** DRS does not promise balance (`Rebalancer.DrsCanLeaveImbalance`).

## Left out

- Rendering, the activity log (`addLog`), the error banner text
  (`setSetupError`), tabs, the wizard page and phase navigation, tooltips, and
  `createCluster` (it only sets a flag and a phase). Outcomes stand in for the
  error messages.
- Timers, `delay` and the `useEffect` that schedules DRS, including its
  trigger on host h7. Each handler runs to completion before the next, so the
  interleaving of overlapping async handlers is not modelled. The states in
  between (RESYNCING, a maintenance host id, an upgrade in progress) are seen
  only by the meters' `steps`.
- Every `setX(prev => …)` is applied in order straight after the handler's
  other writes. React's batching is not modelled.
- Display formatting: `toFixed` and the TB strings. The capacity is kept in
  GB.
- Floating point. The policy multipliers 1.33 and 1.5 are exact fractions.
  For the sizes in the table, double-precision `Math.ceil` yields the same
  whole numbers.
- `selectedFailureHostId`, `selectedFailureDiskId` and the other UI
  selections.
- handleArchitectureChange: folded into `ClusterModel.Cluster.constructor`,
  whose generated hosts are already in the state that handler resets them to
  (`Topology.InitialHostsShape`).
- ClusterModel.Cluster.CreateVms: requires `vms == []`. Its button is offered
  only while no VM exists, and the stale `runDRS()` at its end then returns at
  once.
- ClusterModel.Cluster.SimulateFailure: requires `FailureDefined`, which
  excludes two cases:
  - a ROBO host fault for an unknown host id reads `hostToFail.name` of an
    undefined host;
  - an OSA cache-disk fault with VMs on the host and no other Connected host
    indexes the empty target list with `% 0`. The source then stores those
    VMs PoweredOn and NonCompliant with an undefined `hostId`
    (`src/App.tsx:738-742`). A host id here is a string and cannot be
    undefined, so the model leaves the case out.
- Placement.Components: requires a `vm<N>` id in STANDARD. These are the only
  ids the lab builds, and `parseInt` of anything else gives NaN.
- ClusterModel.Cluster.ClaimDiskRole: the outcome reports a refusal. The
  source also sets and then clears its error banner in the same handler,
  which is not modelled.
- Ids are strings over single-digit host numbers. ROBO's `id.includes('1')`
  is modelled as containment of the character.
