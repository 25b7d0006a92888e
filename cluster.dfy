/** The lab as one stateful object: the state the component keeps, and one
    method per handler, each run to completion before the next. */
module ClusterModel {
  import opened Types
  import opened Progress
  import opened Topology
  import opened Capacity
  import opened Claims
  import opened Placement
  import opened Relocation
  import opened Rebalancer
  import opened Faults
  import opened Maintenance
  import opened Policies

  /** Every field of the lab's state, as one value. */
  datatype LabState = LabState(scenario: Scenario, architecture: Architecture, selectedPolicy: Policy,
                               hosts: seq<Host>, vms: seq<VM>, health: VsanHealth, resyncProgress: nat,
                               maintenanceHostId: Option<string>, maintenanceProgress: nat,
                               upgradingHostId: Option<string>, upgradeProgress: nat,
                               selectedHostsToAdd: seq<string>)

  /** The three progress meters and the stride each one counts in. */
  datatype Meter = ResyncMeter | EvacuationMeter | UpgradeMeter
  {
    function Stride(): (s: nat)
      ensures s > 0
    {
      if EvacuationMeter? then 20 else 10
    }
  }

  function WithMeter(st: LabState, m: Meter, value: nat): LabState {
    match m
    case ResyncMeter => st.(resyncProgress := value)
    case EvacuationMeter => st.(maintenanceProgress := value)
    case UpgradeMeter => st.(upgradeProgress := value)
  }

  function MeterValue(st: LabState, m: Meter): nat {
    match m
    case ResyncMeter => st.resyncProgress
    case EvacuationMeter => st.maintenanceProgress
    case UpgradeMeter => st.upgradeProgress
  }

  /** Writing a meter's own value back changes nothing. */
  lemma MeterUnchanged(st: LabState, m: Meter)
    ensures WithMeter(st, m, MeterValue(st, m)) == st
  {
  }

  /** A meter shows only its latest value. */
  lemma MeterOverwrites(st: LabState, m: Meter, a: nat, b: nat)
    ensures WithMeter(WithMeter(st, m, a), m, b) == WithMeter(st, m, b)
  {
  }

  function SnapOf(st: LabState): Snapshot {
    Snapshot(st.hosts, st.vms, st.health)
  }

  function WithSnap(st: LabState, s: Snapshot): LabState {
    st.(hosts := s.hosts, vms := s.vms, health := s.health)
  }

  /** The state once the lab is reset and a scenario and architecture chosen. */
  function InitialState(scenario: Scenario, arch: Architecture): LabState {
    LabState(scenario, arch, RAID1_FTT1, InitialHosts(scenario, arch), [], HEALTHY, 0, None, 0, None, 0, [])
  }

  /** What holds between two handlers: host ids are unique, no maintenance,
      upgrade or resync is under way, and every meter is within 0..100. */
  predicate ValidState(st: LabState) {
    UniqueHostIds(st.hosts) && st.maintenanceHostId.None? && st.upgradingHostId.None? &&
    st.health != RESYNCING &&
    st.resyncProgress <= 100 && st.maintenanceProgress <= 100 && st.upgradeProgress <= 100
  }

  /** Whether enterMaintenanceMode goes past its guards for a data host. */
  predicate EvacuatesData(hosts: seq<Host>, id: string) {
    EnterVerdict(hosts, id) == Applied && !hosts[FindHost(hosts, id).value].isWitness
  }

  /** The state after each multi-field handler. */
  function UpgradeState(st: LabState, id: string): LabState {
    if UpgradeVerdict(st.hosts, id) != Applied then st
    else st.(hosts := SetVersion(st.hosts, id, TARGET_VERSION), upgradeProgress := 0)
  }

  function EnterState(st: LabState, id: string, mode: MaintenanceMode): LabState {
    var next := WithSnap(st, Enter(SnapOf(st), id, mode));
    if !EvacuatesData(st.hosts, id) then next
    else next.(maintenanceHostId := None, resyncProgress := 0,
               maintenanceProgress := if mode == FullDataEvacuation then 100 else 0)
  }

  function FailureState(st: LabState, fault: Fault, id: string): LabState
    requires FailureDefined(st.scenario, st.selectedPolicy, st.architecture, SnapOf(st), fault, id)
  {
    WithSnap(st, Fail(st.scenario, st.architecture, st.selectedPolicy, SnapOf(st), fault, id))
  }

  function RecoveryState(st: LabState, fault: Fault, id: string): LabState {
    var next := WithSnap(st, Recover(SnapOf(st), fault, id));
    if RecoveryVerdict(SnapOf(st), fault, id) == Applied then next.(resyncProgress := 100) else next
  }

  function ExitState(st: LabState, id: string): LabState {
    var next := WithSnap(st, Exit(SnapOf(st), id));
    if RecoveryVerdict(SnapOf(st), HostFault, id) == Applied then next.(resyncProgress := 100) else next
  }

  /** The disk branch of simulateFailure on the hosts, VMs and health it reads. */
  method ComputeDiskFailure(arch: Architecture, s: Snapshot, id: string) returns (next: Snapshot)
    requires DiskOf(s.hosts, id).Some?
    ensures next == DiskFailure(arch, s, id)
  {
    var (o, k) := DiskOf(s.hosts, id).value;
    var host := s.hosts[o];
    match DiskFaultEffect(arch, host.disks[k].claimedAs) {
      case LoseDiskGroup =>
        var connectedHosts := HostIds(ConnectedOthers(s.hosts, host.id));
        var moved := MarkObjectsOn(s.vms, host.id);
        if |connectedHosts| > 0 {
          moved := RelocateVms(s.vms, host.id, connectedHosts, HaRestart, true);
        }
        next := Snapshot(LoseDiskGroupOn(s.hosts, host.id), moved, s.health);
      case FailOneDisk =>
        next := Snapshot(FailDiskOn(s.hosts, host.id, id), MarkVmsOn(s.vms, host.id), WARNING);
      case MarkHostVms =>
        next := Snapshot(s.hosts, MarkVmsOn(s.vms, host.id), s.health);
    }
  }

  // ---------------------------------------------------------------- the invariant

  /** The lab starts in a valid state. */
  lemma InitialValid(scenario: Scenario, arch: Architecture)
    ensures ValidState(InitialState(scenario, arch))
  {
    InitialHostsShape(scenario, arch);
  }

  /** Every handler that only rewrites the hosts keeps the invariant, as long
      as it keeps their ids. */
  lemma HostsUpdateKeepsValid(st: LabState, hosts: seq<Host>)
    requires ValidState(st) && SameIds(st.hosts, hosts)
    ensures ValidState(st.(hosts := hosts))
  {
    SameIdsKeepUnique(st.hosts, hosts);
  }

  /** The state after an admitted data host enters maintenance. */
  lemma EnterDataState(st: LabState, id: string, mode: MaintenanceMode)
    requires EvacuatesData(st.hosts, id)
    ensures |Survivors(st.hosts, id)| > 0
    ensures EnterState(st, id, mode) ==
              st.(hosts := SetStatus(st.hosts, id, Maintenance), vms := EnteredVms(st.hosts, st.vms, id, mode),
                  health := WARNING, maintenanceHostId := None, resyncProgress := 0,
                  maintenanceProgress := if mode == FullDataEvacuation then 100 else 0)
  {
  }

  lemma EnterKeepsValid(st: LabState, id: string, mode: MaintenanceMode)
    requires ValidState(st)
    ensures ValidState(EnterState(st, id, mode))
  {
    SameIdsKeepUnique(st.hosts, SetStatus(st.hosts, id, Maintenance));
  }

  lemma FailureKeepsValid(st: LabState, fault: Fault, id: string)
    requires ValidState(st)
    requires FailureDefined(st.scenario, st.selectedPolicy, st.architecture, SnapOf(st), fault, id)
    ensures ValidState(FailureState(st, fault, id))
  {
    var f := Fail(st.scenario, st.architecture, st.selectedPolicy, SnapOf(st), fault, id);
    assert SameIds(st.hosts, f.hosts);
    SameIdsKeepUnique(st.hosts, f.hosts);
  }

  lemma RecoveryKeepsValid(st: LabState, fault: Fault, id: string)
    requires ValidState(st)
    ensures ValidState(RecoveryState(st, fault, id))
  {
    SameIdsKeepUnique(st.hosts, RepairHosts(st.hosts, fault, id));
  }

  lemma ExitKeepsValid(st: LabState, id: string)
    requires ValidState(st)
    ensures ValidState(ExitState(st, id))
  {
    var hosts := SetStatus(st.hosts, id, Connected);
    SameIdsKeepUnique(st.hosts, hosts);
    SameIdsKeepUnique(hosts, ReconnectHost(hosts, id));
  }

  /** Run one at a time, the handlers never leave a resync running, so the
      recovery's "resync in progress" refusal cannot be met between them. */
  lemma ResyncRefusalUnreachable(st: LabState, fault: Fault, id: string)
    requires ValidState(st)
    ensures RecoveryVerdict(SnapOf(st), fault, id) != Rejected(ResyncInProgress)
    ensures ExitState(st, id).health == HEALTHY ||
            RecoveryVerdict(SnapOf(st), HostFault, id) == Skipped
  {
  }

  // ---------------------------------------------------------------- the lab

  class Cluster {
    var scenario: Scenario
    var architecture: Architecture
    var selectedPolicy: Policy
    var hosts: seq<Host>
    var vms: seq<VM>
    var health: VsanHealth
    var resyncProgress: nat
    var maintenanceHostId: Option<string>
    var maintenanceProgress: nat
    var upgradingHostId: Option<string>
    var upgradeProgress: nat
    var selectedHostsToAdd: seq<string>

    function State(): LabState
      reads this
    {
      LabState(scenario, architecture, selectedPolicy, hosts, vms, health, resyncProgress,
               maintenanceHostId, maintenanceProgress, upgradingHostId, upgradeProgress, selectedHostsToAdd)
    }

    function Snap(): Snapshot
      reads this
    {
      Snapshot(hosts, vms, health)
    }

    predicate Valid()
      reads this
    {
      ValidState(State())
    }

    /** resetLab followed by the choice of architecture and scenario. */
    constructor (scenario: Scenario, architecture: Architecture)
      ensures Valid() && State() == InitialState(scenario, architecture)
    {
      var generated := GenerateInitialHosts(scenario, architecture);
      this.scenario := scenario;
      this.architecture := architecture;
      selectedPolicy := RAID1_FTT1;
      hosts := generated;
      vms := [];
      health := HEALTHY;
      resyncProgress := 0;
      maintenanceHostId := None;
      maintenanceProgress := 0;
      upgradingHostId := None;
      upgradeProgress := 0;
      selectedHostsToAdd := [];
      new;
      InitialValid(scenario, architecture);
    }

    /** One `for (let i = 0; i <= 100; i += stride)` loop writing a meter;
        `steps` are the values it shows. */
    method RunMeter(m: Meter) returns (steps: seq<nat>)
      modifies this
      ensures steps == Ramp(0, m.Stride(), 100)
      ensures State() == WithMeter(old(State()), m, 100)
    {
      ghost var start := State();
      ghost var last := MeterValue(start, m);
      MeterUnchanged(start, m);
      var stride := m.Stride();
      var shown: seq<nat> := [];
      var i: nat := 0;
      while i <= 100
        invariant shown + Ramp(i, stride, 100) == Ramp(0, stride, 100)
        invariant State() == WithMeter(start, m, last)
        invariant |shown| > 0 ==> shown[|shown| - 1] == last
        decreases 101 - i
      {
        Advance(m, i, start, last);
        last := i;
        RampAdvance(shown, i, stride, 100);
        shown := shown + [i];
        i := i + stride;
      }
      RampFinished(shown, i, stride, last);
      steps := shown;
    }

    /** One pass of the meter loop: the meter, last set to `last`, now shows `value`. */
    method Advance(m: Meter, value: nat, ghost start: LabState, ghost last: nat)
      requires State() == WithMeter(start, m, last)
      modifies this
      ensures State() == WithMeter(start, m, value)
    {
      MeterOverwrites(start, m, last, value);
      Show(m, value);
    }

    /** One setXProgress(value). */
    method Show(m: Meter, value: nat)
      modifies this
      ensures State() == WithMeter(old(State()), m, value)
    {
      match m
      case ResyncMeter => resyncProgress := value;
      case EvacuationMeter => maintenanceProgress := value;
      case UpgradeMeter => upgradeProgress := value;
    }

    method ToggleHostSelection(hostId: string)
      requires Valid()
      modifies this
      ensures Valid()
      ensures State() == old(State()).(selectedHostsToAdd := ToggleSelection(old(selectedHostsToAdd), hostId))
    {
      selectedHostsToAdd := ToggleSelection(selectedHostsToAdd, hostId);
    }

    method AddSelectedHosts() returns (outcome: Outcome)
      requires Valid()
      modifies this
      ensures Valid()
      ensures outcome == SelectionVerdict(old(scenario), old(selectedHostsToAdd))
      ensures State() == if outcome == Applied then old(State()).(hosts := JoinSelected(old(hosts), old(selectedHostsToAdd)))
                         else old(State())
    {
      outcome := SelectionVerdict(scenario, selectedHostsToAdd);
      if outcome == Applied {
        HostsUpdateKeepsValid(State(), JoinSelected(hosts, selectedHostsToAdd));
        hosts := JoinSelected(hosts, selectedHostsToAdd);
      }
    }

    method ToggleVmkConfig(hostId: string)
      requires Valid()
      modifies this
      ensures Valid()
      ensures State() == old(State()).(hosts := ToggleVmk(old(hosts), hostId))
    {
      HostsUpdateKeepsValid(State(), ToggleVmk(hosts, hostId));
      hosts := ToggleVmk(hosts, hostId);
    }

    method ClaimDiskRole(hostId: string, diskId: string, role: Role) returns (outcome: Outcome)
      requires Valid()
      modifies this
      ensures Valid()
      ensures outcome == ClaimDiskVerdict(old(hosts), old(architecture), hostId, diskId, role)
      ensures State() == old(State()).(hosts := ClaimDisk(old(hosts), old(architecture), hostId, diskId, role))
    {
      outcome := ClaimDiskVerdict(hosts, architecture, hostId, diskId, role);
      HostsUpdateKeepsValid(State(), ClaimDisk(hosts, architecture, hostId, diskId, role));
      hosts := ClaimDisk(hosts, architecture, hostId, diskId, role);
    }

    /** The wizard's VMkernel step; it changes nothing but the wizard page. */
    method ValidateServices() returns (outcome: Outcome)
      ensures outcome == ServicesCheck(hosts)
    {
      outcome := ServicesCheck(hosts);
    }

    /** The wizard's disk step. */
    method ValidateDisks() returns (outcome: Outcome)
      ensures outcome == DisksCheck(hosts, scenario, architecture)
    {
      outcome := DisksCheck(hosts, scenario, architecture);
    }

    method CalculateTotalCapacity() returns (totalGB: nat)
      ensures totalGB == RawCapacityGB(hosts)
    {
      totalGB := ComputeTotalCapacity(hosts);
    }

    method CalculateUsedCapacity() returns (totalUsedGB: nat)
      ensures totalUsedGB == UsedCapacityGB(vms)
    {
      totalUsedGB := ComputeUsedCapacity(vms);
    }

    /** The policy selector: a click on a disabled policy does nothing. */
    method SelectPolicy(p: Policy) returns (outcome: Outcome)
      requires Valid()
      modifies this
      ensures Valid()
      ensures outcome == (if PolicyAvailable(p, old(hosts)) then Applied else Skipped)
      ensures State() == if outcome == Applied then old(State()).(selectedPolicy := p) else old(State())
    {
      if PolicyAvailable(p, hosts) {
        selectedPolicy := p;
        outcome := Applied;
      } else {
        outcome := Skipped;
      }
    }

    method UpgradeHost(hostId: string) returns (outcome: Outcome, steps: seq<nat>)
      requires Valid()
      modifies this
      ensures Valid()
      ensures outcome == UpgradeVerdict(old(hosts), hostId)
      ensures steps == if outcome == Applied then Ramp(0, 10, 100) else []
      ensures State() == UpgradeState(old(State()), hostId)
    {
      outcome := UpgradeVerdict(hosts, hostId);
      steps := [];
      if outcome != Applied {
        return;
      }
      upgradingHostId := Some(hostId);
      upgradeProgress := 0;
      steps := RunMeter(UpgradeMeter);
      HostsUpdateKeepsValid(old(State()), SetVersion(hosts, hostId, TARGET_VERSION));
      hosts := SetVersion(hosts, hostId, TARGET_VERSION);
      upgradingHostId := None;
      upgradeProgress := 0;
    }

    method AddUnmanagedHost(hostId: string)
      requires Valid()
      modifies this
      ensures Valid()
      ensures State() == old(State()).(hosts := ExpandHost(old(hosts), hostId, old(architecture)))
    {
      HostsUpdateKeepsValid(State(), ExpandHost(hosts, hostId, architecture));
      hosts := ExpandHost(hosts, hostId, architecture);
    }

    method RunDrs()
      requires Valid()
      modifies this
      ensures Valid()
      ensures State() == old(State()).(vms := Rebalance(old(hosts), old(vms), old(maintenanceHostId)))
    {
      vms := RebalanceVms(hosts, vms, maintenanceHostId);
    }

    /** createVMs; its button is offered only while no VM exists. */
    method CreateVms() returns (outcome: Outcome)
      requires Valid() && vms == []
      modifies this
      ensures Valid()
      ensures outcome == DeployVerdict(old(hosts))
      ensures State() == if outcome == Applied
                         then old(State()).(vms := DeployedVms(old(scenario), old(selectedPolicy), ActiveHosts(old(hosts))))
                         else old(State())
    {
      outcome := DeployVerdict(hosts);
      if outcome == Applied {
        vms := BuildVms(scenario, selectedPolicy, ActiveHosts(hosts));
      }
    }

    method EnterMaintenanceMode(hostId: string, mode: MaintenanceMode) returns (outcome: Outcome, steps: seq<nat>)
      requires Valid()
      modifies this
      ensures Valid()
      ensures outcome == EnterVerdict(old(hosts), hostId)
      ensures steps == if EvacuatesData(old(hosts), hostId) && mode == FullDataEvacuation then Ramp(0, 20, 100) else []
      ensures State() == EnterState(old(State()), hostId, mode)
    {
      EnterKeepsValid(State(), hostId, mode);
      outcome := EnterVerdict(hosts, hostId);
      steps := [];
      if outcome != Applied {
        return;
      }
      var i := FindHost(hosts, hostId).value;
      if hosts[i].isWitness {
        hosts := SetStatus(hosts, hostId, Maintenance);
        health := WARNING;
        return;
      }
      EnterDataState(State(), hostId, mode);
      steps := Evacuate(hostId, mode);
    }

    /** enterMaintenanceMode past its guards for a data host. */
    method Evacuate(hostId: string, mode: MaintenanceMode) returns (steps: seq<nat>)
      requires |Survivors(hosts, hostId)| > 0
      modifies this
      ensures steps == if mode == FullDataEvacuation then Ramp(0, 20, 100) else []
      ensures State() == old(State()).(hosts := SetStatus(old(hosts), hostId, Maintenance),
                                       vms := EnteredVms(old(hosts), old(vms), hostId, mode), health := WARNING,
                                       maintenanceHostId := None, resyncProgress := 0,
                                       maintenanceProgress := if mode == FullDataEvacuation then 100 else 0)
    {
      BeginEvacuation(hostId);
      steps := [];
      if mode == FullDataEvacuation {
        steps := RunMeter(EvacuationMeter);
      } else {
        vms := MarkObjectsOn(vms, hostId);
      }
      FinishMaintenance(hostId);
    }

    /** The banner goes up and the VMs are vMotioned off the host. */
    method BeginEvacuation(hostId: string)
      requires |Survivors(hosts, hostId)| > 0
      modifies this
      ensures State() == old(State()).(vms := EvacuateVms(old(hosts), old(vms), hostId), health := RESYNCING,
                                       maintenanceHostId := Some(hostId), resyncProgress := 0, maintenanceProgress := 0)
    {
      var activeHosts := Survivors(hosts, hostId);
      var moved := RelocateVms(vms, hostId, activeHosts, Evacuation, false);
      maintenanceHostId, maintenanceProgress, resyncProgress, health := Some(hostId), 0, 0, RESYNCING;
      vms := moved;
    }

    /** The host enters Maintenance and the banner comes down. */
    method FinishMaintenance(hostId: string)
      modifies this
      ensures State() == old(State()).(hosts := SetStatus(old(hosts), hostId, Maintenance),
                                       maintenanceHostId := None, health := WARNING)
    {
      hosts := SetStatus(hosts, hostId, Maintenance);
      maintenanceHostId := None;
      health := WARNING;
    }

    method SimulateFailure(fault: Fault, id: string) returns (outcome: Outcome)
      requires Valid() && FailureDefined(scenario, selectedPolicy, architecture, Snap(), fault, id)
      modifies this
      ensures Valid()
      ensures outcome == FailureVerdict(old(scenario), old(selectedPolicy), old(Snap()), fault, id)
      ensures State() == FailureState(old(State()), fault, id)
    {
      outcome := FailureVerdict(scenario, selectedPolicy, Snap(), fault, id);
      FailureKeepsValid(State(), fault, id);
      if outcome != Applied {
        return;
      }
      if IsHostFault(fault) {
        FailHostApplied(fault, id);
      } else {
        FailDiskApplied(id);
      }
    }

    /** simulateFailure's host branch: the host goes down, HA restarts its VMs
        on the survivors (or powers them off and on when none is left). */
    method FailHostApplied(fault: Fault, id: string)
      modifies this
      ensures State() == WithSnap(old(State()),
                Snapshot(FailHost(old(hosts), id, fault), HaRestartVms(old(hosts), old(vms), id), CRITICAL))
    {
      var survivingHostIds := Survivors(hosts, id);
      var restarted: seq<VM>;
      if |survivingHostIds| == 0 {
        restarted := PowerOffOn(vms, id);
      } else {
        restarted := RelocateVms(vms, id, survivingHostIds, HaRestart, true);
      }
      health := CRITICAL;
      hosts := FailHost(hosts, id, fault);
      vms := restarted;
    }

    /** simulateFailure's disk branch, by what losing that disk does in the
        cluster's architecture. */
    method FailDiskApplied(id: string)
      requires DiskOf(hosts, id).Some?
      modifies this
      ensures State() == WithSnap(old(State()), DiskFailure(old(architecture), old(Snap()), id))
    {
      var next := ComputeDiskFailure(architecture, Snap(), id);
      hosts, vms, health := next.hosts, next.vms, next.health;
    }

    /** simulateRecovery past its guards: the repair, the resync meter, then
        HEALTHY with every VM Compliant. */
    method Resync(fault: Fault, id: string) returns (steps: seq<nat>)
      modifies this
      ensures steps == Ramp(0, 10, 100)
      ensures State() == old(State()).(hosts := RepairHosts(old(hosts), fault, id), vms := AllCompliant(old(vms)),
                                       health := HEALTHY, resyncProgress := 100)
    {
      StartResync(fault, id);
      steps := RunMeter(ResyncMeter);
      FinishResync();
    }

    /** The repair is applied and the resync banner goes up. */
    method StartResync(fault: Fault, id: string)
      modifies this
      ensures State() == old(State()).(hosts := RepairHosts(old(hosts), fault, id), health := RESYNCING,
                                       resyncProgress := 0)
    {
      health, resyncProgress := RESYNCING, 0;
      hosts := RepairHosts(hosts, fault, id);
    }

    /** The resync completes: the cluster is HEALTHY and every VM Compliant. */
    method FinishResync()
      modifies this
      ensures State() == old(State()).(vms := AllCompliant(old(vms)), health := HEALTHY, resyncProgress := 100)
    {
      resyncProgress, health := 100, HEALTHY;
      vms := AllCompliant(vms);
    }

    method SimulateRecovery(fault: Fault, id: string) returns (outcome: Outcome, steps: seq<nat>)
      requires Valid()
      modifies this
      ensures Valid()
      ensures outcome == RecoveryVerdict(old(Snap()), fault, id)
      ensures steps == if outcome == Applied then Ramp(0, 10, 100) else []
      ensures State() == RecoveryState(old(State()), fault, id)
    {
      outcome := RecoveryVerdict(Snap(), fault, id);
      RecoveryKeepsValid(State(), fault, id);
      steps := [];
      if outcome != Applied {
        return;
      }
      steps := Resync(fault, id);
    }

    /** exitMaintenanceMode, which no element of the page calls: the recovery
        it starts sees the state from before the host was set Connected. */
    method ExitMaintenanceMode(hostId: string) returns (outcome: Outcome, steps: seq<nat>)
      requires Valid()
      modifies this
      ensures Valid()
      ensures outcome == RecoveryVerdict(old(Snap()), HostFault, hostId)
      ensures steps == if outcome == Applied then Ramp(0, 10, 100) else []
      ensures State() == ExitState(old(State()), hostId)
    {
      var before := Snap();
      ExitKeepsValid(State(), hostId);
      hosts := SetStatus(hosts, hostId, Connected);
      outcome := RecoveryVerdict(before, HostFault, hostId);
      steps := [];
      if outcome != Applied {
        return;
      }
      steps := Resync(HostFault, hostId);
    }

    /** The direct exit button of the host list. */
    method InlineExitMaintenance(hostId: string)
      requires Valid()
      modifies this
      ensures Valid()
      ensures State() == WithSnap(old(State()), InlineExit(old(Snap()), hostId))
    {
      SameIdsKeepUnique(hosts, SetStatus(hosts, hostId, Connected));
      hosts := SetStatus(hosts, hostId, Connected);
      health := HEALTHY;
    }
  }
}
