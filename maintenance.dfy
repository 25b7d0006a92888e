/** Maintenance mode: entering it (with vMotion evacuation and either
    EnsureAccessibility or FullDataEvacuation), the exit handler that runs a
    host recovery, and the direct exit button of the host list. */
module Maintenance {
  import opened Types
  import opened Relocation
  import opened Topology
  import opened Faults

  // ---------------------------------------------------------------- entering

  /** enterMaintenanceMode's guards: an unknown host is ignored, a witness is
      always admitted, and a data host needs another Connected data host to
      evacuate its VMs to. */
  function EnterVerdict(hosts: seq<Host>, id: string): Outcome {
    match FindHost(hosts, id)
    case None => Skipped
    case Some(i) =>
      if hosts[i].isWitness then Applied
      else if |Survivors(hosts, id)| == 0 then Rejected(NoEvacuationTarget)
      else Applied
  }

  /** The compute evacuation: every VM of the host moves by vMotion, round
      robin over the other Connected data hosts, and stays compliant. */
  function EvacuateVms(hosts: seq<Host>, vms: seq<VM>, id: string): (r: seq<VM>)
    requires |Survivors(hosts, id)| > 0
    ensures |r| == |vms|
  {
    Relocate(vms, id, Survivors(hosts, id), 0, Evacuation, false)
  }

  /** The VMs once the handler has finished: evacuated, and under
      EnsureAccessibility marked NonCompliant where an object of theirs stays
      on the host. */
  function EnteredVms(hosts: seq<Host>, vms: seq<VM>, id: string, mode: MaintenanceMode): (r: seq<VM>)
    requires |Survivors(hosts, id)| > 0
    ensures |r| == |vms|
  {
    var moved := EvacuateVms(hosts, vms, id);
    if mode == EnsureAccessibility then MarkObjectsOn(moved, id) else moved
  }

  /** enterMaintenanceMode once it has finished: the host in Maintenance and
      the cluster WARNING; a refused or ignored request changes nothing. */
  function Enter(s: Snapshot, id: string, mode: MaintenanceMode): Snapshot {
    if EnterVerdict(s.hosts, id) != Applied then s
    else if s.hosts[FindHost(s.hosts, id).value].isWitness then
      Snapshot(SetStatus(s.hosts, id, Maintenance), s.vms, WARNING)
    else
      Snapshot(SetStatus(s.hosts, id, Maintenance), EnteredVms(s.hosts, s.vms, id, mode), WARNING)
  }

  /** The request is ignored exactly for an unknown host, and refused exactly
      for a data host without another Connected data host; a request that is
      not admitted changes nothing. */
  lemma EnterGuards(s: Snapshot, id: string, mode: MaintenanceMode)
    ensures EnterVerdict(s.hosts, id) == Skipped <==> forall i :: 0 <= i < |s.hosts| ==> s.hosts[i].id != id
    ensures EnterVerdict(s.hosts, id) == Rejected(NoEvacuationTarget) <==>
              (exists i :: 0 <= i < |s.hosts| && s.hosts[i].id == id && !s.hosts[i].isWitness &&
                           forall j :: 0 <= j < i ==> s.hosts[j].id != id) &&
              forall i :: 0 <= i < |s.hosts| ==>
                !(s.hosts[i].status == Connected && s.hosts[i].id != id && !s.hosts[i].isWitness)
    ensures EnterVerdict(s.hosts, id) != Applied ==> Enter(s, id, mode) == s
  {
    SurvivorsNone(s.hosts, id);
    match FindHost(s.hosts, id)
    case None =>
    case Some(i) =>
      if exists k :: 0 <= k < |s.hosts| && s.hosts[k].id == id && !s.hosts[k].isWitness &&
                     forall j :: 0 <= j < k ==> s.hosts[j].id != id {
        var k :| 0 <= k < |s.hosts| && s.hosts[k].id == id && !s.hosts[k].isWitness &&
                 forall j :: 0 <= j < k ==> s.hosts[j].id != id;
        assert k == i;
      }
  }

  /** A witness appliance goes straight to Maintenance: no VM changes and the
      cluster turns WARNING. */
  lemma EnterWitness(s: Snapshot, id: string, mode: MaintenanceMode)
    requires FindHost(s.hosts, id).Some? && s.hosts[FindHost(s.hosts, id).value].isWitness
    ensures var r := Enter(s, id, mode);
            r.vms == s.vms && r.health == WARNING && |r.hosts| == |s.hosts| &&
            forall i :: 0 <= i < |s.hosts| ==>
              r.hosts[i] == if s.hosts[i].id == id then s.hosts[i].(status := Maintenance) else s.hosts[i]
  {
  }

  /** An admitted data host: it ends in Maintenance with every other host
      unchanged and the cluster WARNING; no VM runs on it any more; each VM
      that ran there now runs on another Connected data host; every other VM
      keeps its host; no VM changes identity or power state. */
  lemma EnterEvacuates(s: Snapshot, id: string, mode: MaintenanceMode)
    requires EnterVerdict(s.hosts, id) == Applied && !s.hosts[FindHost(s.hosts, id).value].isWitness
    ensures var r := Enter(s, id, mode);
            r.health == WARNING && |r.hosts| == |s.hosts| && |r.vms| == |s.vms| &&
            (forall i :: 0 <= i < |s.hosts| ==>
               r.hosts[i] == if s.hosts[i].id == id then s.hosts[i].(status := Maintenance) else s.hosts[i]) &&
            (forall j :: 0 <= j < |s.vms| ==>
               r.vms[j].hostId != id && r.vms[j].power == s.vms[j].power &&
               SameVmBut(s.vms[j], r.vms[j])) &&
            (forall j :: 0 <= j < |s.vms| && s.vms[j].hostId == id ==>
               r.vms[j].hostId in Survivors(s.hosts, id)) &&
            (forall j :: 0 <= j < |s.vms| && s.vms[j].hostId != id ==> r.vms[j].hostId == s.vms[j].hostId)
  {
    var r := Enter(s, id, mode);
    assert r == Snapshot(SetStatus(s.hosts, id, Maintenance), EnteredVms(s.hosts, s.vms, id, mode), WARNING);
    forall j | 0 <= j < |s.vms|
      ensures r.vms[j].hostId != id && r.vms[j].power == s.vms[j].power && SameVmBut(s.vms[j], r.vms[j])
      ensures s.vms[j].hostId == id ==> r.vms[j].hostId in Survivors(s.hosts, id)
      ensures s.vms[j].hostId != id ==> r.vms[j].hostId == s.vms[j].hostId
    {
      EnteredAt(s.hosts, s.vms, id, mode, j);
    }
  }

  /** The j-th VM after the vMotion evacuation. */
  lemma EvacuatedAt(hosts: seq<Host>, vms: seq<VM>, id: string, j: nat)
    requires |Survivors(hosts, id)| > 0 && j < |vms|
    ensures var r := EvacuateVms(hosts, vms, id);
            var moved := vms[j].hostId == id;
            r[j].hostId != id && r[j].power == vms[j].power && SameVmBut(vms[j], r[j]) &&
            (moved ==> r[j].hostId in Survivors(hosts, id) && r[j].compliance == Compliant) &&
            (!moved ==> r[j] == vms[j])
  {
    var targets := Survivors(hosts, id);
    SurvivorsExclude(hosts, id);
    RelocateAt(vms, id, targets, 0, Evacuation, false, j);
    var t := CountOn(vms[..j], id) % |targets|;
    assert targets[t] in targets;
  }

  /** The j-th VM once the handler has finished, and its compliance. */
  lemma EnteredAt(hosts: seq<Host>, vms: seq<VM>, id: string, mode: MaintenanceMode, j: nat)
    requires |Survivors(hosts, id)| > 0 && j < |vms|
    ensures var r := EnteredVms(hosts, vms, id, mode);
            var moved := vms[j].hostId == id;
            r[j].hostId != id && r[j].power == vms[j].power && SameVmBut(vms[j], r[j]) &&
            (moved ==> r[j].hostId in Survivors(hosts, id)) &&
            (!moved ==> r[j].hostId == vms[j].hostId) &&
            (mode == FullDataEvacuation ==>
               r[j].compliance == if moved then Compliant else vms[j].compliance) &&
            (mode == EnsureAccessibility ==>
               r[j].compliance ==
                 if HasComponentOn(vms[j], id) then NonCompliant else if moved then Compliant else vms[j].compliance)
  {
    EvacuatedAt(hosts, vms, id, j);
    var e := EvacuateVms(hosts, vms, id);
    assert e[j].components == vms[j].components;
  }

  /** The compliance an admitted data host leaves behind: under
      FullDataEvacuation every moved VM is Compliant and every other VM keeps
      its compliance; under EnsureAccessibility a VM with an object on the
      host is NonCompliant, and any other VM is Compliant if it moved and keeps
      its compliance if it did not. */
  lemma EnterCompliance(s: Snapshot, id: string, mode: MaintenanceMode, j: nat)
    requires EnterVerdict(s.hosts, id) == Applied && !s.hosts[FindHost(s.hosts, id).value].isWitness
    requires j < |s.vms|
    ensures var r := Enter(s, id, mode);
            var vm := s.vms[j];
            var moved := vm.hostId == id;
            (mode == FullDataEvacuation ==>
               r.vms[j].compliance == if moved then Compliant else vm.compliance) &&
            (mode == EnsureAccessibility ==>
               r.vms[j].compliance ==
                 if HasComponentOn(vm, id) then NonCompliant else if moved then Compliant else vm.compliance)
  {
    EnteredAt(s.hosts, s.vms, id, mode, j);
  }

  /** With no more VMs on the host than evacuation targets, no two of them
      land on the same host. */
  lemma EvacuationSpreads(hosts: seq<Host>, vms: seq<VM>, id: string, a: nat, b: nat)
    requires UniqueHostIds(hosts) && a < b < |vms| && |Survivors(hosts, id)| > 0
    requires vms[a].hostId == id && vms[b].hostId == id
    requires CountOn(vms, id) <= |Survivors(hosts, id)|
    ensures EvacuateVms(hosts, vms, id)[a].hostId != EvacuateVms(hosts, vms, id)[b].hostId
  {
    FilterKeepsUniqueIds(hosts, (h: Host) => h.status == Connected && h.id != id && !h.isWitness);
    RelocateSpreads(vms, id, Survivors(hosts, id), Evacuation, false, a, b);
  }

  // ---------------------------------------------------------------- leaving

  /** exitMaintenanceMode (defined in the component, called by no element):
      the host is set Connected, then the host recovery
      runs with the guard evaluated on the state from before the exit, where
      the host is still in Maintenance. */
  function Exit(s: Snapshot, id: string): Snapshot {
    var hosts := SetStatus(s.hosts, id, Connected);
    if RecoveryVerdict(s, HostFault, id) != Applied then Snapshot(hosts, s.vms, s.health)
    else Snapshot(ReconnectHost(hosts, id), AllCompliant(s.vms), HEALTHY)
  }

  /** Because of that stale guard the recovery always runs for a host in
      Maintenance outside a resync, although on the updated state its guard
      would have skipped it. */
  lemma ExitGuardIsStale(s: Snapshot, id: string)
    requires s.health != RESYNCING && FindHost(s.hosts, id).Some?
    requires s.hosts[FindHost(s.hosts, id).value].status == Maintenance
    requires s.hosts[FindHost(s.hosts, id).value].isolation == Normal
    ensures RecoveryVerdict(s, HostFault, id) == Applied
    ensures RecoveryVerdict(Snapshot(SetStatus(s.hosts, id, Connected), s.vms, s.health), HostFault, id) == Skipped
  {
    var i := FindHost(s.hosts, id).value;
    var t := SetStatus(s.hosts, id, Connected);
    assert t[i].id == id;
    forall j | 0 <= j < i ensures t[j].id != id {
    }
  }

  /** Leaving maintenance outside a resync: the host is Connected with its
      partition healed, every other host unchanged, every VM Compliant and the
      cluster HEALTHY; during a resync only the status changes. */
  lemma ExitEffect(s: Snapshot, id: string)
    requires FindHost(s.hosts, id).Some? && s.hosts[FindHost(s.hosts, id).value].status == Maintenance
    ensures var r := Exit(s, id);
            |r.hosts| == |s.hosts| && |r.vms| == |s.vms| &&
            (s.health != RESYNCING ==>
               r.health == HEALTHY &&
               (forall j :: 0 <= j < |s.vms| ==> r.vms[j] == s.vms[j].(compliance := Compliant)) &&
               forall i :: 0 <= i < |s.hosts| ==>
                 r.hosts[i] == if s.hosts[i].id == id then s.hosts[i].(status := Connected, isolation := Normal)
                               else s.hosts[i]) &&
            (s.health == RESYNCING ==>
               r.health == RESYNCING && r.vms == s.vms &&
               forall i :: 0 <= i < |s.hosts| ==>
                 r.hosts[i] == if s.hosts[i].id == id then s.hosts[i].(status := Connected) else s.hosts[i])
  {
  }

  /** The "exit maintenance" button of the host list: the host Connected and
      the cluster HEALTHY, without a resync. */
  function InlineExit(s: Snapshot, id: string): Snapshot {
    Snapshot(SetStatus(s.hosts, id, Connected), s.vms, HEALTHY)
  }

  /** The direct exit changes only the status of the host and the health: the
      VMs keep their compliance and a partition is not healed. */
  lemma InlineExitEffect(s: Snapshot, id: string)
    ensures var r := InlineExit(s, id);
            r.vms == s.vms && r.health == HEALTHY && |r.hosts| == |s.hosts| &&
            forall i :: 0 <= i < |s.hosts| ==>
              r.hosts[i] == if s.hosts[i].id == id then s.hosts[i].(status := Connected) else s.hosts[i]
  {
  }

  /** Entering and then leaving maintenance by the direct button gives back
      the hosts of a Connected host. */
  lemma InlineExitUndoesEnter(s: Snapshot, id: string, mode: MaintenanceMode)
    requires EnterVerdict(s.hosts, id) == Applied
    requires forall i :: 0 <= i < |s.hosts| && s.hosts[i].id == id ==> s.hosts[i].status == Connected
    ensures InlineExit(Enter(s, id, mode), id).hosts == s.hosts
  {
    var r := InlineExit(Enter(s, id, mode), id);
    assert |r.hosts| == |s.hosts|;
    forall i | 0 <= i < |s.hosts| ensures r.hosts[i] == s.hosts[i] {
    }
  }
}
