/** Failure injection (simulateFailure) and recovery with resync
    (simulateRecovery): admission guards, and the effect of an admitted
    fault or repair on the hosts, the VMs and the cluster health. */
module Faults {
  import opened Types
  import opened Relocation

  /** The part of the cluster state a fault or a repair touches. */
  datatype Snapshot = Snapshot(hosts: seq<Host>, vms: seq<VM>, health: VsanHealth)

  // ---------------------------------------------------------------- the FTT guard

  /** A host the FTT guard counts as already lost. */
  predicate Down(h: Host) {
    h.status == Disconnected || h.isolation == Isolated || h.status == Maintenance
  }

  function FailedCount(hosts: seq<Host>): nat {
    |Filter(hosts, (h: Host) => Down(h))|
  }

  predicate IsHostFault(fault: Fault) {
    fault == HostFault || fault == NetworkFault
  }

  /** Outside ROBO a host or network fault is refused when, counting it, more
      hosts would be lost than the policy tolerates. */
  predicate ExceedsFtt(scenario: Scenario, policy: Policy, hosts: seq<Host>, fault: Fault) {
    scenario != ROBO && IsHostFault(fault) && FailedCount(hosts) + 1 > policy.Ftt()
  }

  /** Whether a host's failure button is enabled (canSimulateHostFailure). */
  predicate CanSimulateHostFailure(h: Host, hosts: seq<Host>, health: VsanHealth,
                                   maintenanceHostId: Option<string>, policy: Policy) {
    h.status == Connected && !(health == RESYNCING || maintenanceHostId.Some?) &&
    FailedCount(hosts) < policy.Ftt()
  }

  /** The FTT guard refuses a host fault exactly when FTT hosts are already
      lost: at FailedCount == FTT it refuses, below it admits. */
  lemma FttGuard(policy: Policy, hosts: seq<Host>, fault: Fault)
    requires IsHostFault(fault)
    ensures ExceedsFtt(STANDARD, policy, hosts, fault) <==> FailedCount(hosts) >= policy.Ftt()
    ensures !ExceedsFtt(ROBO, policy, hosts, fault)
  {
  }

  /** An enabled failure button never meets the handler's FTT refusal; and
      for a Connected host of an idle cluster the button is enabled exactly
      when the STANDARD guard admits a host fault. */
  lemma ButtonMatchesFttGuard(h: Host, hosts: seq<Host>, health: VsanHealth, maintenanceHostId: Option<string>,
                              policy: Policy, scenario: Scenario, fault: Fault)
    ensures CanSimulateHostFailure(h, hosts, health, maintenanceHostId, policy) ==>
              !ExceedsFtt(scenario, policy, hosts, fault)
    ensures h.status == Connected && health != RESYNCING && maintenanceHostId.None? ==>
              (CanSimulateHostFailure(h, hosts, health, maintenanceHostId, policy) <==>
               !ExceedsFtt(STANDARD, policy, hosts, HostFault))
  {
  }

  // ---------------------------------------------------------------- admission

  /** The disk a request names: the first disk with that id on the first host
      that has one. */
  function DiskOf(hosts: seq<Host>, diskId: string): (r: Option<(nat, nat)>)
    ensures r.Some? ==> r.value.0 < |hosts| && r.value.1 < |hosts[r.value.0].disks| &&
                        hosts[r.value.0].disks[r.value.1].id == diskId
    ensures r.None? <==> forall j :: 0 <= j < |hosts| ==> !HasDisk(hosts[j], diskId)
    ensures r.Some? ==> (forall j :: 0 <= j < r.value.0 ==> !HasDisk(hosts[j], diskId)) &&
                        forall q :: 0 <= q < r.value.1 ==> hosts[r.value.0].disks[q].id != diskId
  {
    match FindDiskOwner(hosts, diskId)
    case None => None
    case Some(o) =>
      var k := FindDisk(hosts[o].disks, diskId);
      if k.None? then None else Some((o, k.value))
  }

  /** simulateFailure's guards, in the order the handler applies them. */
  function FailureVerdict(scenario: Scenario, policy: Policy, s: Snapshot, fault: Fault, id: string): Outcome {
    if |s.vms| == 0 then Rejected(NoVmsDeployed)
    else if ExceedsFtt(scenario, policy, s.hosts, fault) then Rejected(FttExceeded)
    else if IsHostFault(fault) then
      var others := |ConnectedOthers(s.hosts, id)|;
      var target := FindHost(s.hosts, id);
      if (target.None? || s.hosts[target.value].status != Connected || others < 2) &&
         !(scenario == ROBO && others >= 1)
      then Rejected(TooFewActiveHosts)
      else Applied
    else
      match DiskOf(s.hosts, id)
      case None => Rejected(DiskNotFailable)
      case Some((o, k)) =>
        if s.hosts[o].disks[k].status != Healthy || s.hosts[o].status != Connected
        then Rejected(DiskNotFailable)
        else Applied
  }

  // ---------------------------------------------------------------- host and network faults

  /** The host loses connectivity; a network partition also isolates it. */
  function FailHost(hosts: seq<Host>, id: string, fault: Fault): (r: seq<Host>)
    ensures SameIds(hosts, r)
    ensures forall i :: 0 <= i < |hosts| ==>
              (hosts[i].id != id ==> r[i] == hosts[i]) &&
              (hosts[i].id == id ==>
                 r[i] == hosts[i].(status := Disconnected, isolation := r[i].isolation) &&
                 r[i].isolation == if fault == NetworkFault then Isolated else hosts[i].isolation)
  {
    seq(|hosts|, i requires 0 <= i < |hosts| =>
      if hosts[i].id != id then hosts[i]
      else if fault == NetworkFault then hosts[i].(status := Disconnected, isolation := Isolated)
      else hosts[i].(status := Disconnected))
  }

  /** Where vSphere HA may restart VMs: Connected data hosts other than the failed one. */
  function Survivors(hosts: seq<Host>, id: string): seq<string> {
    HostIds(ComputeSurvivors(hosts, id))
  }

  /** vSphere HA: the VMs of the failed host restart round robin on the
      survivors, or are powered off where there is none. */
  function HaRestartVms(hosts: seq<Host>, vms: seq<VM>, id: string): (r: seq<VM>)
    ensures |r| == |vms|
  {
    var survivors := Survivors(hosts, id);
    if |survivors| == 0 then PowerOffOn(vms, id)
    else Relocate(vms, id, survivors, 0, HaRestart, true)
  }

  // ---------------------------------------------------------------- disk faults

  /** What a disk fault does, by architecture and claim. */
  datatype DiskEffect = LoseDiskGroup | FailOneDisk | MarkHostVms

  function DiskFaultEffect(arch: Architecture, claim: Claim): DiskEffect {
    if arch == OSA && claim == Cache then LoseDiskGroup
    else if (arch == ESA && claim == StoragePool) || (arch == OSA && claim == Capacity) then FailOneDisk
    else MarkHostVms
  }

  function FailDisk(d: Disk, diskId: string): Disk {
    if d.id == diskId then d.(status := Failed) else d
  }

  /** Every disk with the id on the named host fails. */
  function FailDiskOn(hosts: seq<Host>, hostId: string, diskId: string): (r: seq<Host>)
    ensures SameIds(hosts, r)
  {
    seq(|hosts|, i requires 0 <= i < |hosts| =>
      if hosts[i].id != hostId then hosts[i]
      else hosts[i].(disks := seq(|hosts[i].disks|, k requires 0 <= k < |hosts[i].disks| =>
                                    FailDisk(hosts[i].disks[k], diskId))))
  }

  /** A lost disk group: the host disconnects and all its disks fail. */
  function LoseDiskGroupOn(hosts: seq<Host>, hostId: string): (r: seq<Host>)
    ensures SameIds(hosts, r)
  {
    seq(|hosts|, i requires 0 <= i < |hosts| =>
      if hosts[i].id != hostId then hosts[i]
      else hosts[i].(status := Disconnected,
                     disks := seq(|hosts[i].disks|, k requires 0 <= k < |hosts[i].disks| =>
                                    hosts[i].disks[k].(status := Failed))))
  }

  /** The VMs running on the host lose compliance. */
  function MarkVmsOn(vms: seq<VM>, hostId: string): (r: seq<VM>)
    ensures |r| == |vms|
    ensures forall j :: 0 <= j < |vms| ==>
              r[j].(compliance := vms[j].compliance) == vms[j] &&
              (vms[j].hostId == hostId ==> r[j].compliance == NonCompliant) &&
              (vms[j].hostId != hostId ==> r[j] == vms[j])
  {
    seq(|vms|, j requires 0 <= j < |vms| =>
      if vms[j].hostId == hostId then vms[j].(compliance := NonCompliant) else vms[j])
  }

  /** The handler is defined on the state: an admitted host fault names a
      known host (in ROBO an unknown one would be admitted and then looked
      up), and a lost disk group with VMs on it has some other Connected host
      to restart them on. */
  predicate FailureDefined(scenario: Scenario, policy: Policy, arch: Architecture, s: Snapshot, fault: Fault, id: string) {
    FailureVerdict(scenario, policy, s, fault, id) == Applied ==>
      (IsHostFault(fault) ==> FindHost(s.hosts, id).Some?) &&
      (fault == DiskFault ==>
         var (o, k) := DiskOf(s.hosts, id).value;
         (DiskFaultEffect(arch, s.hosts[o].disks[k].claimedAs) == LoseDiskGroup &&
          CountOn(s.vms, s.hosts[o].id) > 0) ==> |ConnectedOthers(s.hosts, s.hosts[o].id)| > 0)
  }

  /** simulateFailure: a refused fault changes nothing. */
  function Fail(scenario: Scenario, arch: Architecture, policy: Policy, s: Snapshot, fault: Fault, id: string): Snapshot
    requires FailureDefined(scenario, policy, arch, s, fault, id)
  {
    if FailureVerdict(scenario, policy, s, fault, id) != Applied then s
    else if IsHostFault(fault) then
      Snapshot(FailHost(s.hosts, id, fault), HaRestartVms(s.hosts, s.vms, id), CRITICAL)
    else DiskFailure(arch, s, id)
  }

  /** An admitted disk fault, by what losing that disk does in the architecture. */
  function DiskFailure(arch: Architecture, s: Snapshot, id: string): Snapshot
    requires DiskOf(s.hosts, id).Some?
  {
    var (o, k) := DiskOf(s.hosts, id).value;
    var h := s.hosts[o];
    match DiskFaultEffect(arch, h.disks[k].claimedAs)
    case LoseDiskGroup =>
      var targets := HostIds(ConnectedOthers(s.hosts, h.id));
      Snapshot(LoseDiskGroupOn(s.hosts, h.id), LostGroupVms(s.vms, h.id, targets), s.health)
    case FailOneDisk => Snapshot(FailDiskOn(s.hosts, h.id, id), MarkVmsOn(s.vms, h.id), WARNING)
    case MarkHostVms => Snapshot(s.hosts, MarkVmsOn(s.vms, h.id), s.health)
  }

  /** The VMs after a lost disk group: vSphere HA restarts those of the host
      round robin on the other Connected hosts, and every other VM with an
      object on the host loses compliance; with no other Connected host the
      map only marks those objects. */
  function LostGroupVms(vms: seq<VM>, hostId: string, targets: seq<string>): (r: seq<VM>)
    ensures |r| == |vms|
  {
    if |targets| == 0 then MarkObjectsOn(vms, hostId) else Relocate(vms, hostId, targets, 0, HaRestart, true)
  }

  // ---------------------------------------------------------------- recovery

  /** simulateRecovery's guards: refused during a resync, skipped when there
      is nothing to repair. */
  function RecoveryVerdict(s: Snapshot, fault: Fault, id: string): Outcome {
    if s.health == RESYNCING then Rejected(ResyncInProgress)
    else
      var target := FindHost(s.hosts, id);
      if fault == HostFault && target.Some? &&
         s.hosts[target.value].status == Connected && s.hosts[target.value].isolation == Normal then Skipped
      else if fault == NetworkFault && target.Some? && s.hosts[target.value].isolation == Normal then Skipped
      else if fault == DiskFault && DiskOf(s.hosts, id).Some? &&
              var (o, k) := DiskOf(s.hosts, id).value;
              s.hosts[o].disks[k].status == Healthy && s.hosts[o].status == Connected then Skipped
      else Applied
  }

  /** The host rejoins the cluster with its partition healed. */
  function ReconnectHost(hosts: seq<Host>, id: string): (r: seq<Host>)
    ensures SameIds(hosts, r)
  {
    seq(|hosts|, i requires 0 <= i < |hosts| =>
      if hosts[i].id == id then hosts[i].(status := Connected, isolation := Normal) else hosts[i])
  }

  /** A replaced disk: the disk becomes Healthy, and so does every claimed disk
      of a host that was Disconnected. */
  function HealDisk(d: Disk, diskId: string, wasDisconnected: bool): Disk {
    if d.id == diskId || (wasDisconnected && d.claimedAs != Unclaimed) then d.(status := Healthy) else d
  }

  function ReplaceDiskOn(hosts: seq<Host>, hostId: string, diskId: string): (r: seq<Host>)
    ensures SameIds(hosts, r)
  {
    seq(|hosts|, i requires 0 <= i < |hosts| =>
      if hosts[i].id != hostId then hosts[i]
      else hosts[i].(status := Connected,
                     disks := seq(|hosts[i].disks|, k requires 0 <= k < |hosts[i].disks| =>
                                    HealDisk(hosts[i].disks[k], diskId, hosts[i].status == Disconnected))))
  }

  function RepairHosts(hosts: seq<Host>, fault: Fault, id: string): (r: seq<Host>)
    ensures SameIds(hosts, r)
  {
    if IsHostFault(fault) then ReconnectHost(hosts, id)
    else match FindDiskOwner(hosts, id)
      case None => hosts
      case Some(o) => ReplaceDiskOn(hosts, hosts[o].id, id)
  }

  /** simulateRecovery once its resync has run to 100: the repair, every VM
      Compliant and the cluster HEALTHY. */
  function Recover(s: Snapshot, fault: Fault, id: string): Snapshot {
    if RecoveryVerdict(s, fault, id) != Applied then s
    else Snapshot(RepairHosts(s.hosts, fault, id), AllCompliant(s.vms), HEALTHY)
  }

  // ---------------------------------------------------------------- properties

  /** With no VMs nothing can fail; an outright refusal changes nothing. */
  lemma FailureGuards(scenario: Scenario, arch: Architecture, policy: Policy, s: Snapshot, fault: Fault, id: string)
    requires FailureDefined(scenario, policy, arch, s, fault, id)
    ensures |s.vms| == 0 ==> FailureVerdict(scenario, policy, s, fault, id) == Rejected(NoVmsDeployed)
    ensures FailureVerdict(scenario, policy, s, fault, id) != Applied ==> Fail(scenario, arch, policy, s, fault, id) == s
    ensures |s.vms| > 0 && ExceedsFtt(scenario, policy, s.hosts, fault) ==>
              FailureVerdict(scenario, policy, s, fault, id) == Rejected(FttExceeded)
  {
  }

  /** A host or network fault outside ROBO is admitted exactly for a
      Connected host with two other Connected hosts, within FTT, with VMs
      deployed. */
  lemma HostFaultAdmission(policy: Policy, s: Snapshot, fault: Fault, id: string)
    requires IsHostFault(fault)
    ensures FailureVerdict(STANDARD, policy, s, fault, id) == Applied <==>
              |s.vms| > 0 && FailedCount(s.hosts) < policy.Ftt() && |ConnectedOthers(s.hosts, id)| >= 2 &&
              exists i :: 0 <= i < |s.hosts| && s.hosts[i].id == id && s.hosts[i].status == Connected &&
                          forall j :: 0 <= j < i ==> s.hosts[j].id != id
  {
    FindHostFirst(s.hosts, id);
  }

  /** A disk fault passes no FTT guard: it is admitted exactly for an existing
      Healthy disk on a Connected host, with VMs deployed. */
  lemma DiskFaultAdmission(scenario: Scenario, policy: Policy, s: Snapshot, id: string)
    ensures FailureVerdict(scenario, policy, s, DiskFault, id) == Applied <==>
              |s.vms| > 0 && DiskOf(s.hosts, id).Some? &&
              s.hosts[DiskOf(s.hosts, id).value.0].status == Connected &&
              s.hosts[DiskOf(s.hosts, id).value.0].disks[DiskOf(s.hosts, id).value.1].status == Healthy
  {
  }

  /** The failed host is never among the survivors. */
  lemma SurvivorsExclude(hosts: seq<Host>, id: string)
    ensures id !in Survivors(hosts, id)
  {
    var c := ComputeSurvivors(hosts, id);
    forall k | 0 <= k < |c| ensures c[k].id != id {
    }
  }

  /** There is no survivor exactly when no other host is a Connected data host. */
  lemma SurvivorsNone(hosts: seq<Host>, id: string)
    ensures |Survivors(hosts, id)| == 0 <==>
              forall i :: 0 <= i < |hosts| ==> !(hosts[i].status == Connected && hosts[i].id != id && !hosts[i].isWitness)
  {
    var c := ComputeSurvivors(hosts, id);
    if |c| > 0 {
      assert c[0] in hosts;
    } else {
      forall i | 0 <= i < |hosts| && hosts[i].status == Connected && hosts[i].id != id && !hosts[i].isWitness
        ensures hosts[i] in c
      {
      }
    }
  }

  /** The survivors are Connected data hosts, and never the failed host. */
  lemma SurvivorsAreCompute(hosts: seq<Host>, id: string)
    ensures id !in Survivors(hosts, id)
    ensures forall k :: 0 <= k < |Survivors(hosts, id)| ==>
              Survivors(hosts, id)[k] != id &&
              exists i :: 0 <= i < |hosts| && hosts[i].id == Survivors(hosts, id)[k] &&
                          hosts[i].status == Connected && !hosts[i].isWitness
  {
    var c := ComputeSurvivors(hosts, id);
    forall k | 0 <= k < |Survivors(hosts, id)|
      ensures Survivors(hosts, id)[k] != id
      ensures exists i :: 0 <= i < |hosts| && hosts[i].id == Survivors(hosts, id)[k] &&
                          hosts[i].status == Connected && !hosts[i].isWitness
    {
      assert Survivors(hosts, id)[k] == c[k].id;
      assert c[k] in hosts && c[k].status == Connected && c[k].id != id && !c[k].isWitness;
      var i :| 0 <= i < |hosts| && hosts[i] == c[k];
    }
  }

  /** An admitted host or network fault: the host is Disconnected (and
      Isolated for a partition), every other host unchanged, the cluster
      CRITICAL; the VMs of the host restart on survivors as PoweredOn and
      NonCompliant, or, with no survivor, stay on it PoweredOff and
      NonCompliant; a VM elsewhere keeps its host and power state and loses
      compliance exactly when one of its objects sat on the failed host. */
  lemma HostFaultEffect(scenario: Scenario, arch: Architecture, policy: Policy, s: Snapshot, fault: Fault, id: string)
    requires IsHostFault(fault) && FailureDefined(scenario, policy, arch, s, fault, id)
    requires FailureVerdict(scenario, policy, s, fault, id) == Applied
    ensures var r := Fail(scenario, arch, policy, s, fault, id);
            r.health == CRITICAL && |r.hosts| == |s.hosts| &&
            (forall i :: 0 <= i < |s.hosts| && s.hosts[i].id == id ==>
               r.hosts[i].status == Disconnected &&
               r.hosts[i].isolation == (if fault == NetworkFault then Isolated else s.hosts[i].isolation)) &&
            (forall i :: 0 <= i < |s.hosts| && s.hosts[i].id != id ==> r.hosts[i] == s.hosts[i]) &&
            r.vms == HaRestartVms(s.hosts, s.vms, id)
    ensures var r := HaRestartVms(s.hosts, s.vms, id);
            |r| == |s.vms| && forall j :: 0 <= j < |s.vms| ==> HaRestartedAt(s.hosts, s.vms, id, j)
  {
    var r := Fail(scenario, arch, policy, s, fault, id);
    assert r == Snapshot(FailHost(s.hosts, id, fault), HaRestartVms(s.hosts, s.vms, id), CRITICAL);
    HaRestartEffect(s.hosts, s.vms, id);
  }

  /** vSphere HA on its own: see HostFaultEffect. */
  lemma HaRestartEffect(hosts: seq<Host>, vms: seq<VM>, id: string)
    ensures |HaRestartVms(hosts, vms, id)| == |vms|
    ensures forall j :: 0 <= j < |vms| ==> HaRestartedAt(hosts, vms, id, j)
  {
    forall j | 0 <= j < |vms| ensures HaRestartedAt(hosts, vms, id, j) {
      HaRestartAt(hosts, vms, id, j);
    }
  }

  /** What vSphere HA does to the j-th VM. */
  predicate HaRestartedAt(hosts: seq<Host>, vms: seq<VM>, id: string, j: nat)
    requires j < |vms|
  {
    var r := HaRestartVms(hosts, vms, id);
    SameVmBut(vms[j], r[j]) &&
    (|Survivors(hosts, id)| > 0 && vms[j].hostId == id ==>
       r[j].hostId in Survivors(hosts, id) && r[j].power == PoweredOn && r[j].compliance == NonCompliant) &&
    (|Survivors(hosts, id)| == 0 && vms[j].hostId == id ==>
       r[j].hostId == id && r[j].power == PoweredOff && r[j].compliance == NonCompliant) &&
    (vms[j].hostId != id ==>
       r[j] == if HasComponentOn(vms[j], id) then vms[j].(compliance := NonCompliant) else vms[j])
  }

  lemma HaRestartAt(hosts: seq<Host>, vms: seq<VM>, id: string, j: nat)
    requires j < |vms|
    ensures HaRestartedAt(hosts, vms, id, j)
  {
    var survivors := Survivors(hosts, id);
    if |survivors| > 0 {
      RelocateAt(vms, id, survivors, 0, HaRestart, true, j);
      var t := (0 + CountOn(vms[..j], id)) % |survivors|;
      assert survivors[t] in survivors;
    }
  }

  /** vSphere HA spreads the VMs of a failed host: with distinct survivors
      and no more VMs on the host than survivors, no two of its VMs restart
      on the same host. */
  lemma HaRestartSpreads(hosts: seq<Host>, vms: seq<VM>, id: string, a: nat, b: nat)
    requires UniqueHostIds(hosts) && a < b < |vms|
    requires vms[a].hostId == id && vms[b].hostId == id
    requires CountOn(vms, id) <= |Survivors(hosts, id)|
    ensures HaRestartVms(hosts, vms, id)[a].hostId != HaRestartVms(hosts, vms, id)[b].hostId
  {
    var c := ComputeSurvivors(hosts, id);
    FilterKeepsUniqueIds(hosts, (h: Host) => h.status == Connected && h.id != id && !h.isWitness);
    CountPrefixBound(vms, id, a);
    RelocateSpreads(vms, id, Survivors(hosts, id), HaRestart, true, a, b);
  }

  /** A disk fault on an OSA capacity disk or an ESA pool disk: only that disk
      fails, the cluster turns WARNING, and exactly the VMs running on its
      host lose compliance. */
  lemma OneDiskFaultEffect(scenario: Scenario, arch: Architecture, policy: Policy, s: Snapshot, id: string)
    requires FailureDefined(scenario, policy, arch, s, DiskFault, id) && UniqueHostIds(s.hosts)
    requires FailureVerdict(scenario, policy, s, DiskFault, id) == Applied
    requires var (o, k) := DiskOf(s.hosts, id).value; DiskFaultEffect(arch, s.hosts[o].disks[k].claimedAs) == FailOneDisk
    ensures var (o, k) := DiskOf(s.hosts, id).value;
            var r := Fail(scenario, arch, policy, s, DiskFault, id);
            r.health == WARNING && |r.hosts| == |s.hosts| &&
            (forall i :: 0 <= i < |s.hosts| && i != o ==> r.hosts[i] == s.hosts[i]) &&
            r.hosts[o] == s.hosts[o].(disks := r.hosts[o].disks) && |r.hosts[o].disks| == |s.hosts[o].disks| &&
            r.hosts[o].disks[k] == s.hosts[o].disks[k].(status := Failed) &&
            (forall q :: 0 <= q < |s.hosts[o].disks| && s.hosts[o].disks[q].id != id ==>
               r.hosts[o].disks[q] == s.hosts[o].disks[q]) &&
            |r.vms| == |s.vms| &&
            (forall j :: 0 <= j < |s.vms| ==>
               r.vms[j] == if s.vms[j].hostId == s.hosts[o].id then s.vms[j].(compliance := NonCompliant) else s.vms[j])
  {
    var (o, k) := DiskOf(s.hosts, id).value;
    assert Fail(scenario, arch, policy, s, DiskFault, id) ==
           Snapshot(FailDiskOn(s.hosts, s.hosts[o].id, id), MarkVmsOn(s.vms, s.hosts[o].id), WARNING);
    FailDiskOnEffect(s.hosts, o, k, id);
  }

  /** On the hosts alone: failing a disk fails it and only the disks with its
      id, on its own host, and touches nothing else of that host and no
      other host. */
  lemma FailDiskOnEffect(hosts: seq<Host>, o: nat, k: nat, id: string)
    requires UniqueHostIds(hosts) && o < |hosts| && k < |hosts[o].disks| && hosts[o].disks[k].id == id
    ensures var r := FailDiskOn(hosts, hosts[o].id, id);
            |r| == |hosts| && (forall i :: 0 <= i < |hosts| && i != o ==> r[i] == hosts[i]) &&
            r[o] == hosts[o].(disks := r[o].disks) && |r[o].disks| == |hosts[o].disks| &&
            r[o].disks[k] == hosts[o].disks[k].(status := Failed) &&
            forall q :: 0 <= q < |hosts[o].disks| && hosts[o].disks[q].id != id ==> r[o].disks[q] == hosts[o].disks[q]
  {
  }

  /** A failed OSA cache disk loses the whole disk group: the host
      disconnects, all its disks fail, and the health is left as it was (it
      is not set to CRITICAL). vSphere HA restarts the VMs of the host,
      PoweredOn and NonCompliant, on the other Connected hosts, the witness
      included, so none stays on it; every other VM loses compliance exactly
      when one of its objects sat on the host. */
  lemma CacheFaultEffect(scenario: Scenario, arch: Architecture, policy: Policy, s: Snapshot, id: string)
    requires FailureDefined(scenario, policy, arch, s, DiskFault, id) && UniqueHostIds(s.hosts)
    requires FailureVerdict(scenario, policy, s, DiskFault, id) == Applied
    requires var (o, k) := DiskOf(s.hosts, id).value; DiskFaultEffect(arch, s.hosts[o].disks[k].claimedAs) == LoseDiskGroup
    ensures var (o, k) := DiskOf(s.hosts, id).value;
            var r := Fail(scenario, arch, policy, s, DiskFault, id);
            r.health == s.health && |r.hosts| == |s.hosts| &&
            (forall i :: 0 <= i < |s.hosts| && i != o ==> r.hosts[i] == s.hosts[i]) &&
            r.hosts[o] == s.hosts[o].(status := Disconnected, disks := r.hosts[o].disks) &&
            |r.hosts[o].disks| == |s.hosts[o].disks| &&
            (forall q :: 0 <= q < |s.hosts[o].disks| ==> r.hosts[o].disks[q] == s.hosts[o].disks[q].(status := Failed))
    ensures var (o, k) := DiskOf(s.hosts, id).value;
            var r := Fail(scenario, arch, policy, s, DiskFault, id);
            |r.vms| == |s.vms| &&
            (forall j :: 0 <= j < |s.vms| ==>
               LostGroupVmAt(s.vms, s.hosts[o].id, HostIds(ConnectedOthers(s.hosts, s.hosts[o].id)), j)) &&
            forall j :: 0 <= j < |r.vms| ==> r.vms[j].hostId != s.hosts[o].id
  {
    var (o, k) := DiskOf(s.hosts, id).value;
    LoseDiskGroupIs(scenario, arch, policy, s, id);
    LoseDiskGroupOnEffect(s.hosts, o);
    CacheFaultVms(scenario, arch, policy, s, id);
  }

  /** On the hosts alone: a lost disk group disconnects the host and fails all
      its disks, and touches nothing else of that host and no other host. */
  lemma LoseDiskGroupOnEffect(hosts: seq<Host>, o: nat)
    requires UniqueHostIds(hosts) && o < |hosts|
    ensures var r := LoseDiskGroupOn(hosts, hosts[o].id);
            |r| == |hosts| && (forall i :: 0 <= i < |hosts| && i != o ==> r[i] == hosts[i]) &&
            r[o] == hosts[o].(status := Disconnected, disks := r[o].disks) && |r[o].disks| == |hosts[o].disks| &&
            forall q :: 0 <= q < |hosts[o].disks| ==> r[o].disks[q] == hosts[o].disks[q].(status := Failed)
  {
  }

  /** What a lost disk group does to the j-th VM: one on the host restarts
      PoweredOn and NonCompliant on a target; any other loses compliance
      exactly when one of its objects sat on the host. */
  predicate LostGroupVmAt(vms: seq<VM>, hostId: string, targets: seq<string>, j: nat)
    requires j < |vms|
  {
    var r := LostGroupVms(vms, hostId, targets);
    SameVmBut(vms[j], r[j]) &&
    (vms[j].hostId == hostId ==>
       r[j].hostId in targets && r[j].power == PoweredOn && r[j].compliance == NonCompliant) &&
    (vms[j].hostId != hostId ==>
       r[j] == if HasComponentOn(vms[j], hostId) then vms[j].(compliance := NonCompliant) else vms[j])
  }

  /** The VM map of a lost disk group, position by position, when any VM of
      the host has somewhere to go. */
  lemma LostGroupVmsAt(vms: seq<VM>, hostId: string, targets: seq<string>, j: nat)
    requires j < |vms| && (CountOn(vms, hostId) > 0 ==> |targets| > 0)
    ensures LostGroupVmAt(vms, hostId, targets, j)
  {
    if |targets| > 0 {
      RelocateAt(vms, hostId, targets, 0, HaRestart, true, j);
      var t := (0 + CountOn(vms[..j], hostId)) % |targets|;
      assert targets[t] in targets;
    } else {
      CountOnNone(vms, hostId);
    }
  }

  /** After a lost disk group each VM is placed as LostGroupVmAt says. */
  lemma CacheFaultVms(scenario: Scenario, arch: Architecture, policy: Policy, s: Snapshot, id: string)
    requires FailureDefined(scenario, policy, arch, s, DiskFault, id)
    requires FailureVerdict(scenario, policy, s, DiskFault, id) == Applied
    requires var (o, k) := DiskOf(s.hosts, id).value; DiskFaultEffect(arch, s.hosts[o].disks[k].claimedAs) == LoseDiskGroup
    ensures var o := DiskOf(s.hosts, id).value.0;
            var r := Fail(scenario, arch, policy, s, DiskFault, id);
            |r.vms| == |s.vms| &&
            (forall j :: 0 <= j < |s.vms| ==>
               LostGroupVmAt(s.vms, s.hosts[o].id, HostIds(ConnectedOthers(s.hosts, s.hosts[o].id)), j)) &&
            forall j :: 0 <= j < |r.vms| ==> r.vms[j].hostId != s.hosts[o].id
  {
    var o := DiskOf(s.hosts, id).value.0;
    var h := s.hosts[o];
    LoseDiskGroupIs(scenario, arch, policy, s, id);
    ConnectedOthersExclude(s.hosts, h.id);
    LostGroupVmsEffect(s.vms, h.id, HostIds(ConnectedOthers(s.hosts, h.id)));
  }

  lemma ConnectedOthersExclude(hosts: seq<Host>, id: string)
    ensures id !in HostIds(ConnectedOthers(hosts, id))
  {
    var c := ConnectedOthers(hosts, id);
    forall q | 0 <= q < |c| ensures c[q].id != id {
    }
  }

  /** The VM map of a lost disk group as a whole: each VM as LostGroupVmAt
      says, and none left on the host. */
  lemma LostGroupVmsEffect(vms: seq<VM>, hostId: string, targets: seq<string>)
    requires hostId !in targets && (CountOn(vms, hostId) > 0 ==> |targets| > 0)
    ensures forall j :: 0 <= j < |vms| ==> LostGroupVmAt(vms, hostId, targets, j)
    ensures forall j :: 0 <= j < |vms| ==> LostGroupVms(vms, hostId, targets)[j].hostId != hostId
  {
    forall j | 0 <= j < |vms|
      ensures LostGroupVmAt(vms, hostId, targets, j)
      ensures LostGroupVms(vms, hostId, targets)[j].hostId != hostId
    {
      LostGroupVmsAt(vms, hostId, targets, j);
    }
  }

  /** With no VM counted on a host, no VM runs there. */
  lemma {:induction false} CountOnNone(vms: seq<VM>, hostId: string)
    requires CountOn(vms, hostId) == 0
    ensures forall j :: 0 <= j < |vms| ==> vms[j].hostId != hostId
    decreases |vms|
  {
    if |vms| > 0 {
      CountOnNone(vms[1..], hostId);
      forall j | 1 <= j < |vms| ensures vms[j].hostId != hostId {
        assert vms[j] == vms[1..][j - 1];
      }
    }
  }

  /** Any other disk fault leaves the hosts and the health alone and marks
      the VMs running on the disk's host NonCompliant. */
  lemma OtherDiskFaultEffect(scenario: Scenario, arch: Architecture, policy: Policy, s: Snapshot, id: string)
    requires FailureDefined(scenario, policy, arch, s, DiskFault, id)
    requires FailureVerdict(scenario, policy, s, DiskFault, id) == Applied
    requires var (o, k) := DiskOf(s.hosts, id).value; DiskFaultEffect(arch, s.hosts[o].disks[k].claimedAs) == MarkHostVms
    ensures var (o, k) := DiskOf(s.hosts, id).value;
            var r := Fail(scenario, arch, policy, s, DiskFault, id);
            r.hosts == s.hosts && r.health == s.health && r.vms == MarkVmsOn(s.vms, s.hosts[o].id) &&
            forall j :: 0 <= j < |s.vms| ==>
              r.vms[j] == if s.vms[j].hostId == s.hosts[o].id then s.vms[j].(compliance := NonCompliant) else s.vms[j]
  {
  }

  /** Recovery is refused exactly during a resync, and skipped exactly when
      there is nothing to repair. */
  lemma RecoveryGuards(s: Snapshot, fault: Fault, id: string)
    ensures RecoveryVerdict(s, fault, id) == Rejected(ResyncInProgress) <==> s.health == RESYNCING
    ensures RecoveryVerdict(s, fault, id) != Applied ==> Recover(s, fault, id) == s
    ensures s.health != RESYNCING && fault == HostFault ==>
              (RecoveryVerdict(s, fault, id) == Skipped <==>
               exists i :: 0 <= i < |s.hosts| && s.hosts[i].id == id && (forall j :: 0 <= j < i ==> s.hosts[j].id != id) &&
                           s.hosts[i].status == Connected && s.hosts[i].isolation == Normal)
    ensures s.health != RESYNCING && fault == NetworkFault ==>
              (RecoveryVerdict(s, fault, id) == Skipped <==>
               exists i :: 0 <= i < |s.hosts| && s.hosts[i].id == id && (forall j :: 0 <= j < i ==> s.hosts[j].id != id) &&
                           s.hosts[i].isolation == Normal)
    ensures s.health != RESYNCING && fault == DiskFault ==>
              (RecoveryVerdict(s, fault, id) == Skipped <==>
               exists o, k :: 0 <= o < |s.hosts| && 0 <= k < |s.hosts[o].disks| && s.hosts[o].disks[k].id == id &&
                              (forall j :: 0 <= j < o ==> !HasDisk(s.hosts[j], id)) &&
                              (forall q :: 0 <= q < k ==> s.hosts[o].disks[q].id != id) &&
                              s.hosts[o].disks[k].status == Healthy && s.hosts[o].status == Connected)
  {
    FindHostFirst(s.hosts, id);
    var d := DiskOf(s.hosts, id);
    if d.Some? {
      var (o, k) := d.value;
      forall o', k' | 0 <= o' < |s.hosts| && 0 <= k' < |s.hosts[o'].disks| && s.hosts[o'].disks[k'].id == id &&
                      (forall j :: 0 <= j < o' ==> !HasDisk(s.hosts[j], id)) &&
                      (forall q :: 0 <= q < k' ==> s.hosts[o'].disks[q].id != id)
        ensures o' == o && k' == k
      {
        assert HasDisk(s.hosts[o'], id);
        assert HasDisk(s.hosts[o], id);
      }
    }
  }

  /** An admitted recovery ends HEALTHY with every VM Compliant; a host or
      network repair reconnects exactly the named host with its partition
      healed. */
  lemma HostRecoveryEffect(s: Snapshot, fault: Fault, id: string)
    requires IsHostFault(fault) && RecoveryVerdict(s, fault, id) == Applied
    ensures var r := Recover(s, fault, id);
            r.health == HEALTHY && |r.vms| == |s.vms| &&
            (forall j :: 0 <= j < |s.vms| ==> r.vms[j] == s.vms[j].(compliance := Compliant)) &&
            |r.hosts| == |s.hosts| &&
            forall i :: 0 <= i < |s.hosts| ==>
              r.hosts[i] == if s.hosts[i].id == id then s.hosts[i].(status := Connected, isolation := Normal) else s.hosts[i]
  {
  }

  /** A disk replacement reconnects the disk's host and heals the disk, and
      every claimed disk of the host if it was Disconnected; nothing else of
      that host and no other host changes. */
  lemma DiskRecoveryEffect(s: Snapshot, id: string)
    requires UniqueHostIds(s.hosts) && RecoveryVerdict(s, DiskFault, id) == Applied && DiskOf(s.hosts, id).Some?
    ensures var (o, k) := DiskOf(s.hosts, id).value;
            var r := Recover(s, DiskFault, id);
            var was := s.hosts[o].status == Disconnected;
            r.health == HEALTHY && |r.hosts| == |s.hosts| &&
            (forall i :: 0 <= i < |s.hosts| && i != o ==> r.hosts[i] == s.hosts[i]) &&
            r.hosts[o] == s.hosts[o].(status := Connected, disks := r.hosts[o].disks) &&
            r.hosts[o].disks[k].status == Healthy &&
            |r.hosts[o].disks| == |s.hosts[o].disks| &&
            forall q :: 0 <= q < |s.hosts[o].disks| ==>
              r.hosts[o].disks[q] ==
                if s.hosts[o].disks[q].id == id || (was && s.hosts[o].disks[q].claimedAs != Unclaimed)
                then s.hosts[o].disks[q].(status := Healthy) else s.hosts[o].disks[q]
  {
  }

  /** Failing a Connected, unpartitioned host and then recovering it gives
      back the same hosts, with the cluster HEALTHY and every VM Compliant;
      the VMs keep the hosts HA restarted them on. */
  lemma RecoverUndoesHostFault(scenario: Scenario, arch: Architecture, policy: Policy, s: Snapshot, fault: Fault, id: string)
    requires IsHostFault(fault) && FailureDefined(scenario, policy, arch, s, fault, id)
    requires FailureVerdict(scenario, policy, s, fault, id) == Applied
    requires forall i :: 0 <= i < |s.hosts| && s.hosts[i].id == id ==>
               s.hosts[i].status == Connected && s.hosts[i].isolation == Normal
    ensures var f := Fail(scenario, arch, policy, s, fault, id);
            var r := Recover(f, fault, id);
            r.hosts == s.hosts && r.health == HEALTHY && r.vms == AllCompliant(f.vms)
  {
    var f := Fail(scenario, arch, policy, s, fault, id);
    assert f == Snapshot(FailHost(s.hosts, id, fault), HaRestartVms(s.hosts, s.vms, id), CRITICAL);
    FailedHostNeedsRecovery(f.hosts, f.vms, s.hosts, id, fault);
    ReconnectUndoesFailHost(s.hosts, id, fault);
  }

  /** The failed host is found Disconnected, and Isolated after a partition,
      so its recovery is admitted. */
  lemma FailedHostNeedsRecovery(failed: seq<Host>, vms: seq<VM>, hosts: seq<Host>, id: string, fault: Fault)
    requires IsHostFault(fault) && FindHost(hosts, id).Some? && failed == FailHost(hosts, id, fault)
    ensures RecoveryVerdict(Snapshot(failed, vms, CRITICAL), fault, id) == Applied
  {
    var j := FindHost(hosts, id).value;
    SameIdsFind(hosts, failed, id);
    assert failed[j].status == Disconnected;
    assert failed[j].isolation == Normal ==> fault == HostFault;
  }

  /** On the hosts alone: reconnecting a Connected, unpartitioned host that
      failed gives back the hosts. */
  lemma ReconnectUndoesFailHost(hosts: seq<Host>, id: string, fault: Fault)
    requires IsHostFault(fault)
    requires forall i :: 0 <= i < |hosts| && hosts[i].id == id ==> hosts[i].status == Connected && hosts[i].isolation == Normal
    ensures RepairHosts(FailHost(hosts, id, fault), fault, id) == hosts
  {
    var r := RepairHosts(FailHost(hosts, id, fault), fault, id);
    forall i | 0 <= i < |hosts| ensures r[i] == hosts[i] {
    }
  }

  /** Failing a capacity or pool disk and then replacing it gives back the
      same hosts, when the disk's id is unique on its host. */
  lemma RecoverUndoesDiskFault(scenario: Scenario, arch: Architecture, policy: Policy, s: Snapshot, id: string)
    requires FailureDefined(scenario, policy, arch, s, DiskFault, id) && UniqueHostIds(s.hosts)
    requires FailureVerdict(scenario, policy, s, DiskFault, id) == Applied
    requires var (o, k) := DiskOf(s.hosts, id).value;
             DiskFaultEffect(arch, s.hosts[o].disks[k].claimedAs) == FailOneDisk && UniqueDiskIds(s.hosts[o].disks)
    ensures var f := Fail(scenario, arch, policy, s, DiskFault, id);
            var r := Recover(f, DiskFault, id);
            r.hosts == s.hosts && r.health == HEALTHY
  {
    var (o, k) := DiskOf(s.hosts, id).value;
    FailOneDiskIs(scenario, arch, policy, s, id);
    var failed := FailDiskOn(s.hosts, s.hosts[o].id, id);
    ReplaceUndoesFailDisk(s.hosts, o, k, id);
    FailedDiskRecovers(Snapshot(failed, MarkVmsOn(s.vms, s.hosts[o].id), WARNING), o, k, id);
  }

  /** A failed disk on a connected host outside a resync is repaired. */
  lemma FailedDiskRecovers(f: Snapshot, o: nat, k: nat, id: string)
    requires f.health == WARNING && DiskOf(f.hosts, id) == Some((o, k)) && f.hosts[o].disks[k].status == Failed
    ensures Recover(f, DiskFault, id) == Snapshot(RepairHosts(f.hosts, DiskFault, id), AllCompliant(f.vms), HEALTHY)
  {
  }

  /** The snapshot after a capacity or pool disk fault. */
  lemma FailOneDiskIs(scenario: Scenario, arch: Architecture, policy: Policy, s: Snapshot, id: string)
    requires FailureDefined(scenario, policy, arch, s, DiskFault, id)
    requires FailureVerdict(scenario, policy, s, DiskFault, id) == Applied
    requires var (o, k) := DiskOf(s.hosts, id).value; DiskFaultEffect(arch, s.hosts[o].disks[k].claimedAs) == FailOneDisk
    ensures var o := DiskOf(s.hosts, id).value.0;
            Fail(scenario, arch, policy, s, DiskFault, id) ==
              Snapshot(FailDiskOn(s.hosts, s.hosts[o].id, id), MarkVmsOn(s.vms, s.hosts[o].id), WARNING)
  {
  }

  /** The snapshot after a cache disk fault. */
  lemma LoseDiskGroupIs(scenario: Scenario, arch: Architecture, policy: Policy, s: Snapshot, id: string)
    requires FailureDefined(scenario, policy, arch, s, DiskFault, id)
    requires FailureVerdict(scenario, policy, s, DiskFault, id) == Applied
    requires var (o, k) := DiskOf(s.hosts, id).value; DiskFaultEffect(arch, s.hosts[o].disks[k].claimedAs) == LoseDiskGroup
    ensures var o := DiskOf(s.hosts, id).value.0;
            var f := Fail(scenario, arch, policy, s, DiskFault, id);
            f.hosts == LoseDiskGroupOn(s.hosts, s.hosts[o].id) && f.health == s.health &&
            f.vms == LostGroupVms(s.vms, s.hosts[o].id, HostIds(ConnectedOthers(s.hosts, s.hosts[o].id))) &&
            (CountOn(s.vms, s.hosts[o].id) > 0 ==> |ConnectedOthers(s.hosts, s.hosts[o].id)| > 0)
  {
  }

  /** On the hosts alone: failing a disk whose id is unique on its host
      leaves it where the lookup finds it, and replacing it restores the
      hosts. */
  lemma ReplaceUndoesFailDisk(hosts: seq<Host>, o: nat, k: nat, id: string)
    requires UniqueHostIds(hosts) && DiskOf(hosts, id) == Some((o, k))
    requires hosts[o].status == Connected && hosts[o].disks[k].status == Healthy && UniqueDiskIds(hosts[o].disks)
    ensures var f := FailDiskOn(hosts, hosts[o].id, id);
            DiskOf(f, id) == Some((o, k)) && f[o].disks[k].status == Failed && f[o].status == Connected &&
            RepairHosts(f, DiskFault, id) == hosts
  {
    FailedDiskLocated(hosts, o, k, id);
    RepairAfterFailDisk(hosts, o, k, id);
  }

  lemma FailedDiskLocated(hosts: seq<Host>, o: nat, k: nat, id: string)
    requires DiskOf(hosts, id) == Some((o, k))
    ensures var f := FailDiskOn(hosts, hosts[o].id, id);
            DiskOf(f, id) == Some((o, k)) && f[o].disks[k] == FailDisk(hosts[o].disks[k], id) && f[o].status == hosts[o].status
  {
    var f := FailDiskOn(hosts, hosts[o].id, id);
    FailDiskKeepsDiskIds(hosts, hosts[o].id, id);
    SameDiskOf(hosts, f, id);
  }

  lemma RepairAfterFailDisk(hosts: seq<Host>, o: nat, k: nat, id: string)
    requires UniqueHostIds(hosts) && DiskOf(hosts, id) == Some((o, k))
    requires hosts[o].status == Connected && hosts[o].disks[k].status == Healthy && UniqueDiskIds(hosts[o].disks)
    ensures RepairHosts(FailDiskOn(hosts, hosts[o].id, id), DiskFault, id) == hosts
  {
    var f := FailDiskOn(hosts, hosts[o].id, id);
    FailDiskKeepsDiskIds(hosts, hosts[o].id, id);
    SameOwner(hosts, f, id);
    assert FindDiskOwner(f, id) == Some(o);
    ReplaceRestoresHosts(hosts, o, k, id);
  }

  lemma ReplaceRestoresHosts(hosts: seq<Host>, o: nat, k: nat, id: string)
    requires UniqueHostIds(hosts) && o < |hosts| && k < |hosts[o].disks| && hosts[o].disks[k].id == id
    requires hosts[o].status == Connected && hosts[o].disks[k].status == Healthy && UniqueDiskIds(hosts[o].disks)
    ensures ReplaceDiskOn(FailDiskOn(hosts, hosts[o].id, id), hosts[o].id, id) == hosts
  {
    var r := ReplaceDiskOn(FailDiskOn(hosts, hosts[o].id, id), hosts[o].id, id);
    forall i | 0 <= i < |hosts| ensures r[i] == hosts[i] {
      ReplaceRestoresHost(hosts, o, k, id, i);
    }
  }

  lemma FailDiskKeepsDiskIds(hosts: seq<Host>, hostId: string, id: string)
    ensures var f := FailDiskOn(hosts, hostId, id);
            |f| == |hosts| && forall i :: 0 <= i < |hosts| ==> SameDiskIds(hosts[i], f[i])
  {
  }

  lemma LoseDiskGroupKeepsDiskIds(hosts: seq<Host>, hostId: string)
    ensures var f := LoseDiskGroupOn(hosts, hostId);
            |f| == |hosts| && forall i :: 0 <= i < |hosts| ==> SameDiskIds(hosts[i], f[i])
  {
  }

  lemma ReplaceRestoresHost(hosts: seq<Host>, o: nat, k: nat, id: string, i: nat)
    requires UniqueHostIds(hosts) && o < |hosts| && k < |hosts[o].disks| && hosts[o].disks[k].id == id && i < |hosts|
    requires hosts[o].status == Connected && hosts[o].disks[k].status == Healthy && UniqueDiskIds(hosts[o].disks)
    ensures ReplaceDiskOn(FailDiskOn(hosts, hosts[o].id, id), hosts[o].id, id)[i] == hosts[i]
  {
    var f := FailDiskOn(hosts, hosts[o].id, id);
    var r := ReplaceDiskOn(f, hosts[o].id, id);
    if i == o {
      forall q | 0 <= q < |hosts[o].disks| ensures r[o].disks[q] == hosts[o].disks[q] {
        assert f[o].disks[q] == FailDisk(hosts[o].disks[q], id);
        if q != k {
          assert hosts[o].disks[q].id != id;
        }
      }
    } else {
      assert hosts[i].id != hosts[o].id;
    }
  }

  /** Two hosts list the same disk ids in the same order. */
  predicate SameDiskIds(a: Host, b: Host) {
    |a.disks| == |b.disks| && forall q :: 0 <= q < |a.disks| ==> a.disks[q].id == b.disks[q].id
  }

  /** Disk lookups only see disk ids. */
  lemma {:induction false} SameDiskOf(a: seq<Host>, b: seq<Host>, id: string)
    requires |a| == |b| && forall i :: 0 <= i < |a| ==> SameDiskIds(a[i], b[i])
    ensures DiskOf(b, id) == DiskOf(a, id)
  {
    SameOwner(a, b, id);
    match FindDiskOwner(a, id)
    case None =>
    case Some(o) => SameFindDisk(a[o].disks, b[o].disks, id);
  }

  lemma {:induction false} SameOwner(a: seq<Host>, b: seq<Host>, id: string)
    requires |a| == |b| && forall i :: 0 <= i < |a| ==> SameDiskIds(a[i], b[i])
    ensures FindDiskOwner(b, id) == FindDiskOwner(a, id)
    decreases |a|
  {
    if |a| > 0 {
      SameHasDisk(a[0], b[0], id);
      SameDiskIdsTail(a, b);
      SameOwner(a[1..], b[1..], id);
    }
  }

  lemma SameHasDisk(x: Host, y: Host, id: string)
    requires SameDiskIds(x, y)
    ensures HasDisk(y, id) <==> HasDisk(x, id)
  {
    if HasDisk(x, id) {
      var q :| 0 <= q < |x.disks| && x.disks[q].id == id;
      assert y.disks[q].id == id;
    }
    if HasDisk(y, id) {
      var q :| 0 <= q < |y.disks| && y.disks[q].id == id;
      assert x.disks[q].id == id;
    }
  }

  lemma SameDiskIdsTail(a: seq<Host>, b: seq<Host>)
    requires |a| == |b| > 0 && forall i :: 0 <= i < |a| ==> SameDiskIds(a[i], b[i])
    ensures |a[1..]| == |b[1..]| && forall i :: 0 <= i < |a[1..]| ==> SameDiskIds(a[1..][i], b[1..][i])
  {
    forall i | 0 <= i < |a| - 1 ensures SameDiskIds(a[1..][i], b[1..][i]) {
      assert SameDiskIds(a[i + 1], b[i + 1]);
    }
  }

  lemma {:induction false} SameFindDisk(a: seq<Disk>, b: seq<Disk>, id: string)
    requires |a| == |b| && forall q :: 0 <= q < |a| ==> a[q].id == b[q].id
    ensures FindDisk(b, id) == FindDisk(a, id)
    decreases |a|
  {
    if |a| > 0 {
      SameFindDisk(a[1..], b[1..], id);
    }
  }

  /** A lost disk group is not fully restored by replacing its cache disk:
      an Unclaimed disk of the host failed with the group, but recovery only
      heals the named disk and the claimed disks. */
  lemma CacheRecoveryLeavesUnclaimedFailed(scenario: Scenario, arch: Architecture, policy: Policy, s: Snapshot,
                                           id: string, q: nat)
    requires FailureDefined(scenario, policy, arch, s, DiskFault, id) && UniqueHostIds(s.hosts)
    requires FailureVerdict(scenario, policy, s, DiskFault, id) == Applied
    requires var (o, k) := DiskOf(s.hosts, id).value;
             DiskFaultEffect(arch, s.hosts[o].disks[k].claimedAs) == LoseDiskGroup &&
             q < |s.hosts[o].disks| && s.hosts[o].disks[q].claimedAs == Unclaimed && s.hosts[o].disks[q].id != id
    ensures var o := DiskOf(s.hosts, id).value.0;
            var r := Recover(Fail(scenario, arch, policy, s, DiskFault, id), DiskFault, id);
            o < |r.hosts| && q < |r.hosts[o].disks| && r.hosts[o].disks[q].status == Failed
  {
    var (o, k) := DiskOf(s.hosts, id).value;
    var f := Fail(scenario, arch, policy, s, DiskFault, id);
    LoseDiskGroupIs(scenario, arch, policy, s, id);
    ReplaceKeepsUnclaimedFailed(s.hosts, o, k, id, q);
  }

  /** On the hosts alone: after a lost disk group, replacing the named disk
      leaves the host's Unclaimed disks Failed. */
  lemma ReplaceKeepsUnclaimedFailed(hosts: seq<Host>, o: nat, k: nat, id: string, q: nat)
    requires UniqueHostIds(hosts) && DiskOf(hosts, id) == Some((o, k))
    requires q < |hosts[o].disks| && hosts[o].disks[q].claimedAs == Unclaimed && hosts[o].disks[q].id != id
    ensures var f := LoseDiskGroupOn(hosts, hosts[o].id);
            var g := RepairHosts(f, DiskFault, id);
            o < |f| && q < |f[o].disks| && f[o].disks[q].status == Failed &&
            o < |g| && q < |g[o].disks| && g[o].disks[q].status == Failed
  {
    var f := LoseDiskGroupOn(hosts, hosts[o].id);
    var d := hosts[o].disks[q];
    assert f[o].status == Disconnected && f[o].disks[q] == d.(status := Failed);
    LoseDiskGroupKeepsDiskIds(hosts, hosts[o].id);
    SameOwner(hosts, f, id);
    var g := ReplaceDiskOn(f, hosts[o].id, id);
    assert RepairHosts(f, DiskFault, id) == g;
    assert g[o].disks[q] == HealDisk(f[o].disks[q], id, true);
  }
}
