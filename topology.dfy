/** Topology model: the lab's generated hosts and disks, host selection and
    cluster join, the VMkernel toggle, host expansion and the upgrade guard. */
module Topology {
  import opened Types

  function Digit(d: nat): (c: char)
    requires d < 10
    ensures c as int == 48 + d
  {
    (48 + d) as char
  }

  // ---------------------------------------------------------------- generated disks

  function NvmeDisk(i: nat, k: nat, size: string, gb: nat): Disk
    requires i < 10 && k < 10
  {
    Disk("nvme.500" + [Digit(i), Digit(k)], NVMe, size, gb, StoragePoolTier, Unclaimed, Healthy)
  }

  function CacheSsd(i: nat, size: string, gb: nat): Disk
    requires i < 10
  {
    Disk("naa.500" + [Digit(i)], SSD, size, gb, CacheTier, Unclaimed, Healthy)
  }

  function CapacityHdd(i: nat, k: nat, size: string, gb: nat): Disk
    requires i < 10 && k < 10
  {
    Disk("naa.600" + [Digit(i), Digit(k)], HDD, size, gb, CapacityTier, Unclaimed, Healthy)
  }

  /** The disks of data host i (diskSetup in the generator). */
  function DiskSetup(scenario: Scenario, arch: Architecture, i: nat): seq<Disk>
    requires i < 10
  {
    match (scenario, arch)
    case (STANDARD, ESA) =>
      [NvmeDisk(i, 1, "1.92 TB", 1920), NvmeDisk(i, 2, "1.92 TB", 1920), NvmeDisk(i, 3, "1.92 TB", 1920)]
    case (STANDARD, OSA) =>
      [CacheSsd(i, "800 GB", 800), CapacityHdd(i, 1, "4 TB", 4000), CapacityHdd(i, 2, "4 TB", 4000)]
    case (ROBO, ESA) =>
      [NvmeDisk(i, 1, "3.84 TB", 3840), NvmeDisk(i, 2, "3.84 TB", 3840)]
    case (ROBO, OSA) =>
      [CacheSsd(i, "400 GB", 400), CapacityHdd(i, 1, "1.92 TB", 1920), CapacityHdd(i, 2, "1.92 TB", 1920)]
  }

  // ---------------------------------------------------------------- generated hosts

  /** Data host i of a scenario; its address ends in 10 + i. */
  function DataHost(scenario: Scenario, arch: Architecture, i: nat): Host
    requires 1 <= i <= 9
  {
    var d := Digit(i);
    if scenario == STANDARD then
      Host("h" + [d], "esxi0" + [d] + ".riveritatech.local", "192.168.10.1" + [d],
           INITIAL_VERSION, false, Unmanaged, DiskSetup(scenario, arch, i), false, Normal)
    else
      Host("h" + [d], "esxi0" + [d] + "-robo.riverita.local", "10.10.10.1" + [d],
           INITIAL_VERSION, false, Unmanaged, DiskSetup(scenario, arch, i), false, Normal)
  }

  const WITNESS_ID := "witness"

  /** The witness appliance of the two-node (ROBO) scenario. */
  function WitnessAppliance(): Host {
    Host(WITNESS_ID, "vsan-witness-01.riverita.local", "172.16.20.5", INITIAL_VERSION, true,
         Unmanaged, [Disk("wit.meta.1", SSD, "10 GB", 0, WitnessMetadataTier, Unclaimed, Healthy)],
         false, Normal)
  }

  /** Hosts offered by a scenario: seven data hosts, or two data hosts and a witness. */
  function InitialHosts(scenario: Scenario, arch: Architecture): seq<Host> {
    if scenario == STANDARD then seq(7, j requires 0 <= j < 7 => DataHost(STANDARD, arch, j + 1))
    else [DataHost(ROBO, arch, 1), DataHost(ROBO, arch, 2), WitnessAppliance()]
  }

  /** generateInitialHosts: pushes the hosts one by one. */
  method GenerateInitialHosts(scenario: Scenario, arch: Architecture) returns (hostsArray: seq<Host>)
    ensures hostsArray == InitialHosts(scenario, arch)
  {
    hostsArray := [];
    if scenario == STANDARD {
      var numHosts := 7;
      for i := 1 to numHosts + 1
        invariant hostsArray == seq(i - 1, j requires 0 <= j < i - 1 => DataHost(STANDARD, arch, j + 1))
      {
        hostsArray := hostsArray + [DataHost(STANDARD, arch, i)];
      }
    } else {
      for i := 1 to 3
        invariant hostsArray == seq(i - 1, j requires 0 <= j < i - 1 => DataHost(ROBO, arch, j + 1))
      {
        hostsArray := hostsArray + [DataHost(ROBO, arch, i)];
      }
      hostsArray := hostsArray + [WitnessAppliance()];
    }
  }

  /** Every generated host is fresh: not yet managed, VMkernel off, not isolated,
      on the initial version, with unclaimed healthy disks of distinct ids. */
  predicate Pristine(h: Host) {
    h.status == Unmanaged && !h.vmkConfigured && h.isolation == Normal &&
    h.version == INITIAL_VERSION && UniqueDiskIds(h.disks) &&
    forall k :: 0 <= k < |h.disks| ==> h.disks[k].claimedAs == Unclaimed && h.disks[k].status == Healthy
  }

  lemma DataHostIds(scenario: Scenario, arch: Architecture, i: nat, j: nat)
    requires 1 <= i <= 9 && 1 <= j <= 9 && i != j
    ensures DataHost(scenario, arch, i).id != DataHost(scenario, arch, j).id
    ensures DataHost(scenario, arch, i).id != WITNESS_ID
  {
    assert DataHost(scenario, arch, i).id[1] == Digit(i);
    assert DataHost(scenario, arch, j).id[1] == Digit(j);
  }

  lemma DataHostPristine(scenario: Scenario, arch: Architecture, i: nat)
    requires 1 <= i <= 9
    ensures Pristine(DataHost(scenario, arch, i)) && !DataHost(scenario, arch, i).isWitness
    ensures |DataHost(scenario, arch, i).disks| == if scenario == ROBO && arch == ESA then 2 else 3
  {
    var ds := DataHost(scenario, arch, i).disks;
    forall a, b | 0 <= a < b < |ds| ensures ds[a].id != ds[b].id {
      if arch == ESA {
        assert ds[a].id[9] == Digit(a + 1) && ds[b].id[9] == Digit(b + 1);
      } else if a == 0 {
        assert ds[a].id[5] == '0' && ds[b].id[5] == '0';
        assert |ds[a].id| != |ds[b].id|;
      } else {
        assert ds[a].id[8] == Digit(a) && ds[b].id[8] == Digit(b);
      }
    }
  }

  /** What generateInitialHosts promises: seven data hosts (STANDARD) or two data
      hosts followed by the witness (ROBO), distinct ids, all of them pristine. */
  lemma InitialHostsShape(scenario: Scenario, arch: Architecture)
    ensures |InitialHosts(scenario, arch)| == if scenario == STANDARD then 7 else 3
    ensures UniqueHostIds(InitialHosts(scenario, arch))
    ensures forall i :: 0 <= i < |InitialHosts(scenario, arch)| ==> Pristine(InitialHosts(scenario, arch)[i])
    ensures forall i :: 0 <= i < |InitialHosts(scenario, arch)| ==>
              (InitialHosts(scenario, arch)[i].isWitness <==> scenario == ROBO && i == 2)
    ensures scenario == ROBO ==> InitialHosts(scenario, arch)[2] == WitnessAppliance()
    ensures forall i :: 0 <= i < |InitialHosts(scenario, arch)| && !InitialHosts(scenario, arch)[i].isWitness ==>
              InitialHosts(scenario, arch)[i] == DataHost(scenario, arch, i + 1)
  {
    InitialHostsPristine(scenario, arch);
    InitialHostsDistinct(scenario, arch);
  }

  lemma InitialHostsPristine(scenario: Scenario, arch: Architecture)
    ensures forall i :: 0 <= i < |InitialHosts(scenario, arch)| ==> Pristine(InitialHosts(scenario, arch)[i])
  {
    var hs := InitialHosts(scenario, arch);
    forall i | 0 <= i < |hs| ensures Pristine(hs[i]) {
      if scenario == STANDARD || i < 2 {
        DataHostPristine(scenario, arch, i + 1);
      }
    }
  }

  lemma InitialHostsDistinct(scenario: Scenario, arch: Architecture)
    ensures UniqueHostIds(InitialHosts(scenario, arch))
  {
    var hs := InitialHosts(scenario, arch);
    forall i, j | 0 <= i < j < |hs| ensures hs[i].id != hs[j].id {
      if scenario == STANDARD || j < 2 {
        DataHostIds(scenario, arch, i + 1, j + 1);
      } else {
        DataHostIds(scenario, arch, i + 1, if i == 0 then 2 else 1);
      }
    }
  }

  // ---------------------------------------------------------------- host selection and join

  /** toggleHostSelection: removes the id from the selection, or appends it. */
  function ToggleSelection(selected: seq<string>, id: string): seq<string> {
    if id in selected then Filter(selected, (x: string) => x != id) else selected + [id]
  }

  /** Toggling flips the membership of the id and of nothing else; toggling an
      id that is not selected twice gives back the selection unchanged. */
  lemma ToggleSelectionLaw(selected: seq<string>, id: string)
    ensures id in ToggleSelection(selected, id) <==> id !in selected
    ensures forall x :: x != id ==> (x in ToggleSelection(selected, id) <==> x in selected)
    ensures id !in selected ==> ToggleSelection(ToggleSelection(selected, id), id) == selected
  {
    var f := (x: string) => x != id;
    if id in selected {
      var r := Filter(selected, f);
      forall x | x != id ensures x in r <==> x in selected {
        if x in selected {
          var i :| 0 <= i < |selected| && selected[i] == x;
          assert f(selected[i]);
        }
        if x in r {
          var i :| 0 <= i < |r| && r[i] == x;
        }
      }
    } else {
      var t := selected + [id];
      assert id in t;
      FilterAppend(selected, [id], f);
      FilterKeepsAll(selected, f);
      assert Filter([id], f) == [];
    }
  }

  /** The minimum selection addSelectedHosts admits. */
  function SelectionVerdict(scenario: Scenario, selected: seq<string>): Outcome {
    if scenario == ROBO then
      if WITNESS_ID !in selected || |Filter(selected, (x: string) => x != WITNESS_ID)| < 2
      then Rejected(RoboSelectionIncomplete) else Applied
    else if |selected| < 3 then Rejected(TooFewHostsSelected)
    else Applied
  }

  /** addSelectedHosts: every selected host becomes Connected. */
  function JoinSelected(hosts: seq<Host>, selected: seq<string>): (r: seq<Host>)
    ensures SameIds(hosts, r)
  {
    seq(|hosts|, i requires 0 <= i < |hosts| =>
      if hosts[i].id in selected then hosts[i].(status := Connected) else hosts[i])
  }

  /** After a join, the Connected hosts are those already Connected plus the
      selected ones; nothing but the status changes. */
  lemma JoinSelectedEffect(hosts: seq<Host>, selected: seq<string>)
    ensures forall i :: 0 <= i < |hosts| ==>
              (JoinSelected(hosts, selected)[i].status == Connected <==>
                 hosts[i].status == Connected || hosts[i].id in selected)
    ensures forall i :: 0 <= i < |hosts| ==>
              JoinSelected(hosts, selected)[i] == hosts[i].(status := JoinSelected(hosts, selected)[i].status)
  {
  }

  // ---------------------------------------------------------------- VMkernel

  /** toggleVmkConfig: flips the vSAN VMkernel flag of the named host. */
  function ToggleVmk(hosts: seq<Host>, id: string): (r: seq<Host>)
    ensures SameIds(hosts, r)
    ensures forall i :: 0 <= i < |hosts| ==>
              r[i].vmkConfigured == (if hosts[i].id == id then !hosts[i].vmkConfigured else hosts[i].vmkConfigured)
    ensures forall i :: 0 <= i < |hosts| ==>
              r[i].(vmkConfigured := hosts[i].vmkConfigured) == hosts[i] && (hosts[i].id != id ==> r[i] == hosts[i])
  {
    seq(|hosts|, i requires 0 <= i < |hosts| =>
      if hosts[i].id == id then hosts[i].(vmkConfigured := !hosts[i].vmkConfigured) else hosts[i])
  }

  /** The VMkernel toggle is an involution. */
  lemma ToggleVmkTwice(hosts: seq<Host>, id: string)
    ensures ToggleVmk(ToggleVmk(hosts, id), id) == hosts
  {
  }

  // ---------------------------------------------------------------- expansion

  /** The disks addUnmanagedHost installs: the template host of the same id in a
      STANDARD generation, or the first template host's when there is none. */
  function ExpansionDisks(arch: Architecture, hostId: string): seq<Disk> {
    var template := InitialHosts(STANDARD, arch);
    var found := FindHost(template, hostId);
    var t := if found.Some? then template[found.value].disks else [];
    var d := if |t| > 0 then t else template[0].disks;
    seq(|d|, j requires 0 <= j < |d| => d[j].(claimedAs := Unclaimed, status := Healthy))
  }

  /** addUnmanagedHost: the host joins Connected with its VMkernel off and fresh disks. */
  function ExpandHost(hosts: seq<Host>, hostId: string, arch: Architecture): (r: seq<Host>)
    ensures SameIds(hosts, r)
  {
    seq(|hosts|, i requires 0 <= i < |hosts| =>
      if hosts[i].id == hostId
      then hosts[i].(status := Connected, vmkConfigured := false, disks := ExpansionDisks(arch, hostId))
      else hosts[i])
  }

  /** After an expansion the named host is Connected with its VMkernel off and
      three unclaimed healthy disks of distinct ids, and keeps everything
      else; every other host is unchanged; expanding it again changes
      nothing more. */
  lemma ExpandHostEffect(hosts: seq<Host>, hostId: string, arch: Architecture)
    ensures var r := ExpandHost(hosts, hostId, arch);
            |r| == |hosts| &&
            forall i :: 0 <= i < |hosts| ==>
              (hosts[i].id != hostId ==> r[i] == hosts[i]) &&
              (hosts[i].id == hostId ==>
                 r[i] == hosts[i].(status := Connected, vmkConfigured := false, disks := r[i].disks) &&
                 r[i].disks == ExpansionDisks(arch, hostId) && |r[i].disks| == 3 && UniqueDiskIds(r[i].disks) &&
                 forall k :: 0 <= k < 3 ==> r[i].disks[k].claimedAs == Unclaimed && r[i].disks[k].status == Healthy)
    ensures ExpandHost(ExpandHost(hosts, hostId, arch), hostId, arch) == ExpandHost(hosts, hostId, arch)
  {
    ExpansionDisksShape(arch, hostId);
  }

  /** An expanded host gets the three disks of the STANDARD template host of the
      same id (host h1's for an id the template lacks), all unclaimed and healthy:
      one SSD and two HDDs under OSA, three NVMe devices under ESA. */
  lemma ExpansionDisksShape(arch: Architecture, hostId: string)
    ensures |ExpansionDisks(arch, hostId)| == 3
    ensures UniqueDiskIds(ExpansionDisks(arch, hostId))
    ensures forall k :: 0 <= k < 3 ==>
              ExpansionDisks(arch, hostId)[k].claimedAs == Unclaimed &&
              ExpansionDisks(arch, hostId)[k].status == Healthy
    ensures arch == OSA ==>
              ExpansionDisks(arch, hostId)[0].media == SSD &&
              ExpansionDisks(arch, hostId)[1].media == HDD && ExpansionDisks(arch, hostId)[2].media == HDD
    ensures arch == ESA ==> forall k :: 0 <= k < 3 ==> ExpansionDisks(arch, hostId)[k].media == NVMe
    ensures forall i :: 1 <= i <= 7 && hostId == DataHost(STANDARD, arch, i).id ==>
              ExpansionDisks(arch, hostId) == DataHost(STANDARD, arch, i).disks
  {
    ExpansionIsTemplate(arch, hostId);
    var found := FindHost(InitialHosts(STANDARD, arch), hostId);
    DataHostPristine(STANDARD, arch, if found.Some? then found.value + 1 else 1);
    ExpansionMatchesTemplate(arch, hostId);
  }

  /** The installed disks are those of one template host, as generated. */
  lemma ExpansionIsTemplate(arch: Architecture, hostId: string)
    ensures var found := FindHost(InitialHosts(STANDARD, arch), hostId);
            ExpansionDisks(arch, hostId) == DataHost(STANDARD, arch, if found.Some? then found.value + 1 else 1).disks
  {
    var template := InitialHosts(STANDARD, arch);
    InitialHostsShape(STANDARD, arch);
    var found := FindHost(template, hostId);
    var n := if found.Some? then found.value else 0;
    assert template[n] == DataHost(STANDARD, arch, n + 1);
    DataHostPristine(STANDARD, arch, n + 1);
  }

  lemma ExpansionMatchesTemplate(arch: Architecture, hostId: string)
    ensures forall i :: 1 <= i <= 7 && hostId == DataHost(STANDARD, arch, i).id ==>
              ExpansionDisks(arch, hostId) == DataHost(STANDARD, arch, i).disks
  {
    var template := InitialHosts(STANDARD, arch);
    InitialHostsDistinct(STANDARD, arch);
    ExpansionIsTemplate(arch, hostId);
    forall i | 1 <= i <= 7 && hostId == DataHost(STANDARD, arch, i).id
      ensures ExpansionDisks(arch, hostId) == DataHost(STANDARD, arch, i).disks
    {
      assert template[i - 1] == DataHost(STANDARD, arch, i);
      FindHostUnique(template, i - 1);
    }
  }

  // ---------------------------------------------------------------- lifecycle

  /** upgradeHost's guard: the host must exist and be in Maintenance. */
  function UpgradeVerdict(hosts: seq<Host>, id: string): Outcome {
    match FindHost(hosts, id)
    case None => Rejected(HostNotInMaintenance)
    case Some(i) => if hosts[i].status != Maintenance then Rejected(HostNotInMaintenance) else Applied
  }

  /** The final step of upgradeHost: the named host reports the target version. */
  function SetVersion(hosts: seq<Host>, id: string, version: string): (r: seq<Host>)
    ensures SameIds(hosts, r)
  {
    seq(|hosts|, i requires 0 <= i < |hosts| =>
      if hosts[i].id == id then hosts[i].(version := version) else hosts[i])
  }

  /** Sets the connection status of the named host (both exit paths of maintenance). */
  function SetStatus(hosts: seq<Host>, id: string, status: HostStatus): (r: seq<Host>)
    ensures SameIds(hosts, r)
  {
    seq(|hosts|, i requires 0 <= i < |hosts| =>
      if hosts[i].id == id then hosts[i].(status := status) else hosts[i])
  }

  /** An upgrade is admitted exactly for a host that is in Maintenance, and then
      only that host's version changes. */
  lemma UpgradeLaw(hosts: seq<Host>, id: string)
    requires UniqueHostIds(hosts)
    ensures UpgradeVerdict(hosts, id) == Applied <==>
              exists i :: 0 <= i < |hosts| && hosts[i].id == id && hosts[i].status == Maintenance
    ensures forall i :: 0 <= i < |hosts| ==>
              SetVersion(hosts, id, TARGET_VERSION)[i] ==
                (if hosts[i].id == id then hosts[i].(version := TARGET_VERSION) else hosts[i])
  {
    if exists i :: 0 <= i < |hosts| && hosts[i].id == id && hosts[i].status == Maintenance {
      var i :| 0 <= i < |hosts| && hosts[i].id == id && hosts[i].status == Maintenance;
      FindHostUnique(hosts, i);
    }
  }
}
