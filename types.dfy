/** Entities of the vSAN lab control plane: disks, hosts, VM components, VMs,
    storage policies, the cluster health state and the outcome of a handler. */
module Types {

  datatype Option<T> = None | Some(value: T)

  // ---------------------------------------------------------------- disks

  datatype Media = SSD | HDD | NVMe

  /** The tier a disk was shipped for; informational, never read by a rule. */
  datatype Tier = CacheTier | CapacityTier | StoragePoolTier | WitnessMetadataTier

  datatype Claim = Unclaimed | Cache | Capacity | StoragePool | Witness

  /** The roles a claim request may ask for (never Unclaimed). */
  type Role = c: Claim | c != Unclaimed witness Cache

  datatype DiskStatus = Healthy | Failed

  datatype Disk = Disk(id: string, media: Media, size: string, capacityGB: nat,
                       tier: Tier, claimedAs: Claim, status: DiskStatus)

  // ---------------------------------------------------------------- hosts

  datatype HostStatus = Connected | Disconnected | Maintenance | Unmanaged

  datatype Isolation = Normal | Isolated

  datatype Host = Host(id: string, name: string, ip: string, version: string,
                       isWitness: bool, status: HostStatus, disks: seq<Disk>,
                       vmkConfigured: bool, isolation: Isolation)

  const INITIAL_VERSION := "ESXi 8.0 U2"
  const TARGET_VERSION := "ESXi 8.0 U3"

  // ---------------------------------------------------------------- VMs

  datatype ComponentKind = VMHome | DataReplica | WitnessComponent

  datatype ComponentStatus = Active | Absent | Stale

  datatype Component = Component(id: string, kind: ComponentKind, hostId: string,
                                 status: ComponentStatus)

  datatype Power = PoweredOn | PoweredOff | Booting

  datatype Compliance = Compliant | NonCompliant

  /** The five storage policies of the lab. */
  datatype Policy = RAID1_FTT1 | RAID5_FTT1 | RAID1_FTT2 | RAID6_FTT2 | RAID1_FTT3
  {
    /** The number after "FTT" in the policy name: the failures it tolerates. */
    function Ftt(): nat {
      match this
      case RAID1_FTT1 => 1
      case RAID5_FTT1 => 1
      case RAID1_FTT2 => 2
      case RAID6_FTT2 => 2
      case RAID1_FTT3 => 3
    }

    /** Whether the policy name contains "RAID1" (mirroring). */
    predicate IsMirror() {
      RAID1_FTT1? || RAID1_FTT2? || RAID1_FTT3?
    }

    /** Hosts the policy table requires before the policy can be chosen. */
    function RequiredHosts(): nat {
      match this
      case RAID1_FTT1 => 3
      case RAID5_FTT1 => 4
      case RAID1_FTT2 => 5
      case RAID6_FTT2 => 6
      case RAID1_FTT3 => 7
    }

    /** Space multiplier as the fraction SpaceNumerator() / SpaceDenominator():
        FTT + 1 for mirroring, 1.33 for RAID-5 and 1.5 for RAID-6. */
    function SpaceNumerator(): nat {
      if IsMirror() then Ftt() + 1
      else if RAID5_FTT1? then 133
      else 3
    }

    function SpaceDenominator(): (d: nat)
      ensures d > 0
    {
      if IsMirror() then 1
      else if RAID5_FTT1? then 100
      else 2
    }
  }

  datatype VM = VM(id: string, name: string, hostId: string, power: Power,
                   compliance: Compliance, policy: Policy, sizeGB: nat,
                   components: seq<Component>, usedSpaceGB: nat)

  // ---------------------------------------------------------------- cluster

  datatype VsanHealth = HEALTHY | WARNING | CRITICAL | RESYNCING

  datatype Scenario = STANDARD | ROBO

  datatype Architecture = OSA | ESA

  datatype Fault = HostFault | DiskFault | NetworkFault

  datatype MaintenanceMode = EnsureAccessibility | FullDataEvacuation

  /** Why a handler refused to act; the lab shows a message for each. */
  datatype Reason =
    | TooFewHostsSelected
    | RoboSelectionIncomplete
    | SecondCacheDisk
    | SsdAsCapacity
    | HddInEsaPool
    | VmkernelNotEnabled(hostNames: seq<string>)
    | WitnessDiskUnclaimed
    | DiskLayoutInvalid(hostNames: seq<string>)
    | HostNotInMaintenance
    | NoEvacuationTarget
    | NoVmsDeployed
    | FttExceeded
    | TooFewActiveHosts
    | DiskNotFailable
    | ResyncInProgress
    | TooFewHostsForVms

  /** Result of a handler: it acted, it returned silently, or it was refused.
      Skipped and Rejected leave the state unchanged. */
  datatype Outcome = Applied | Skipped | Rejected(reason: Reason)

  // ---------------------------------------------------------------- lookups

  /** Index of the first host with the given id (Array.prototype.find). */
  function FindHost(hosts: seq<Host>, id: string): (r: Option<nat>)
    ensures r.Some? ==> r.value < |hosts| && hosts[r.value].id == id
    ensures r.Some? ==> forall j :: 0 <= j < r.value ==> hosts[j].id != id
    ensures r.None? <==> forall j :: 0 <= j < |hosts| ==> hosts[j].id != id
  {
    if |hosts| == 0 then None
    else if hosts[0].id == id then Some(0)
    else match FindHost(hosts[1..], id)
      case None => None
      case Some(k) => Some(k + 1)
  }

  /** Index of the first disk with the given id. */
  function FindDisk(disks: seq<Disk>, id: string): (r: Option<nat>)
    ensures r.Some? ==> r.value < |disks| && disks[r.value].id == id
    ensures r.Some? ==> forall j :: 0 <= j < r.value ==> disks[j].id != id
    ensures r.None? <==> forall j :: 0 <= j < |disks| ==> disks[j].id != id
  {
    if |disks| == 0 then None
    else if disks[0].id == id then Some(0)
    else match FindDisk(disks[1..], id)
      case None => None
      case Some(k) => Some(k + 1)
  }

  predicate HasDisk(h: Host, id: string) {
    exists j :: 0 <= j < |h.disks| && h.disks[j].id == id
  }

  /** Index of the first host owning a disk with the given id. */
  function FindDiskOwner(hosts: seq<Host>, diskId: string): (r: Option<nat>)
    ensures r.Some? ==> r.value < |hosts| && HasDisk(hosts[r.value], diskId)
    ensures r.Some? ==> forall j :: 0 <= j < r.value ==> !HasDisk(hosts[j], diskId)
    ensures r.None? <==> forall j :: 0 <= j < |hosts| ==> !HasDisk(hosts[j], diskId)
  {
    if |hosts| == 0 then None
    else if HasDisk(hosts[0], diskId) then Some(0)
    else match FindDiskOwner(hosts[1..], diskId)
      case None => None
      case Some(k) => Some(k + 1)
  }

  predicate UniqueHostIds(hosts: seq<Host>) {
    forall i, j :: 0 <= i < j < |hosts| ==> hosts[i].id != hosts[j].id
  }

  lemma FindHostUnique(hosts: seq<Host>, j: nat)
    requires UniqueHostIds(hosts) && j < |hosts|
    ensures FindHost(hosts, hosts[j].id) == Some(j)
  {
  }

  /** The first index carrying the id is the one the lookup finds. */
  lemma FindHostFirst(hosts: seq<Host>, id: string)
    ensures forall k :: 0 <= k < |hosts| && hosts[k].id == id && (forall j :: 0 <= j < k ==> hosts[j].id != id) ==>
                          FindHost(hosts, id) == Some(k)
  {
  }

  predicate UniqueDiskIds(disks: seq<Disk>) {
    forall i, j :: 0 <= i < j < |disks| ==> disks[i].id != disks[j].id
  }

  /** The two host sequences list the same ids in the same order. */
  predicate SameIds(a: seq<Host>, b: seq<Host>) {
    |a| == |b| && forall i :: 0 <= i < |a| ==> a[i].id == b[i].id
  }

  /** The lookup only sees ids. */
  lemma {:induction false} SameIdsFind(a: seq<Host>, b: seq<Host>, id: string)
    requires SameIds(a, b)
    ensures FindHost(b, id) == FindHost(a, id)
    decreases |a|
  {
    if |a| > 0 {
      assert SameIds(a[1..], b[1..]) by {
        forall i | 0 <= i < |a| - 1 ensures a[1..][i].id == b[1..][i].id {
          assert a[1..][i] == a[i + 1] && b[1..][i] == b[i + 1];
        }
      }
      SameIdsFind(a[1..], b[1..], id);
    }
  }

  lemma SameIdsKeepUnique(a: seq<Host>, b: seq<Host>)
    requires SameIds(a, b) && UniqueHostIds(a)
    ensures UniqueHostIds(b)
  {
  }

  /** The part of a host name before the first dot (name.split('.')[0]). */
  function ShortName(name: string): (r: string)
    ensures |r| <= |name| && r == name[..|r|] && '.' !in r
    ensures r == name || name[|r|] == '.'
  {
    if |name| == 0 || name[0] == '.' then ""
    else [name[0]] + ShortName(name[1..])
  }

  // ---------------------------------------------------------------- filters

  /** Elements of s that satisfy f, in order (Array.prototype.filter). */
  function Filter<T>(s: seq<T>, f: T -> bool): (r: seq<T>)
    ensures |r| <= |s|
    ensures forall i :: 0 <= i < |r| ==> r[i] in s && f(r[i])
    ensures forall i :: 0 <= i < |s| && f(s[i]) ==> s[i] in r
  {
    if |s| == 0 then []
    else if f(s[0]) then [s[0]] + Filter(s[1..], f)
    else Filter(s[1..], f)
  }

  lemma FilterEmpty<T>(s: seq<T>, f: T -> bool)
    ensures |Filter(s, f)| == 0 <==> forall i :: 0 <= i < |s| ==> !f(s[i])
  {
    if |Filter(s, f)| == 0 {
      forall i | 0 <= i < |s| ensures !f(s[i]) {
        assert s[i] in s;
      }
    } else {
      assert Filter(s, f)[0] in Filter(s, f);
    }
  }

  lemma FilterAppend<T>(a: seq<T>, b: seq<T>, f: T -> bool)
    ensures Filter(a + b, f) == Filter(a, f) + Filter(b, f)
  {
    if |a| > 0 {
      assert (a + b)[1..] == a[1..] + b;
    } else {
      assert a + b == b;
    }
  }

  /** A filter of one element keeps it exactly when it satisfies the predicate. */
  lemma FilterSingleton<T>(x: T, f: T -> bool)
    ensures Filter([x], f) == if f(x) then [x] else []
  {
    assert [x][1..] == [];
  }

  /** Filtering keeps the elements that satisfy the predicate in their order
      and with their multiplicity: it is the concatenation of the one-element
      filters. */
  lemma {:induction false} FilterInOrder<T>(s: seq<T>, f: T -> bool)
    ensures |s| > 0 ==> Filter(s, f) == Filter([s[0]], f) + Filter(s[1..], f)
    ensures forall x :: multiset(Filter(s, f))[x] == if f(x) then multiset(s)[x] else 0
    decreases |s|
  {
    if |s| > 0 {
      assert s == [s[0]] + s[1..];
      FilterAppend([s[0]], s[1..], f);
      FilterSingleton(s[0], f);
      FilterInOrder(s[1..], f);
      assert multiset(s) == multiset([s[0]]) + multiset(s[1..]);
      assert multiset(Filter(s, f)) == multiset(Filter([s[0]], f)) + multiset(Filter(s[1..], f));
    }
  }

  lemma FilterKeepsAll<T>(s: seq<T>, f: T -> bool)
    requires forall i :: 0 <= i < |s| ==> f(s[i])
    ensures Filter(s, f) == s
  {
    if |s| > 0 {
      FilterKeepsAll(s[1..], f);
    }
  }

  /** A property every element of s has, every element of Filter(s, f) has. */
  lemma FilterAll<T>(s: seq<T>, f: T -> bool, g: T -> bool)
    requires forall i :: 0 <= i < |s| ==> g(s[i])
    ensures forall i :: 0 <= i < |Filter(s, f)| ==> g(Filter(s, f)[i])
  {
    forall i | 0 <= i < |Filter(s, f)| ensures g(Filter(s, f)[i]) {
      assert Filter(s, f)[i] in Filter(s, f);
    }
  }

  /** Filtering keeps host ids unique. */
  lemma {:induction false} FilterKeepsUniqueIds(hosts: seq<Host>, f: Host -> bool)
    requires UniqueHostIds(hosts)
    ensures UniqueHostIds(Filter(hosts, f))
    decreases |hosts|
  {
    if |hosts| > 0 {
      var rest := hosts[1..];
      FilterKeepsUniqueIds(rest, f);
      if f(hosts[0]) {
        var r := Filter(hosts, f);
        assert r == [hosts[0]] + Filter(rest, f);
        forall i, j | 0 <= i < j < |r| ensures r[i].id != r[j].id {
          if i == 0 {
            assert r[j] == Filter(rest, f)[j - 1];
            assert r[j] in rest;
          }
        }
      }
    }
  }

  // ---------------------------------------------------------------- host selections

  function ConnectedHosts(hosts: seq<Host>): (r: seq<Host>) {
    Filter(hosts, (h: Host) => h.status == Connected)
  }

  /** Connected hosts other than the one named (a guard in several handlers). */
  function ConnectedOthers(hosts: seq<Host>, id: string): (r: seq<Host>) {
    Filter(hosts, (h: Host) => h.status == Connected && h.id != id)
  }

  /** Connected, non-witness hosts other than the one named: where VMs can run. */
  function ComputeSurvivors(hosts: seq<Host>, id: string): (r: seq<Host>) {
    Filter(hosts, (h: Host) => h.status == Connected && h.id != id && !h.isWitness)
  }

  /** Connected hosts with the vSAN VMkernel enabled. */
  function ActiveHosts(hosts: seq<Host>): (r: seq<Host>) {
    Filter(hosts, (h: Host) => h.status == Connected && h.vmkConfigured)
  }

  function NonWitness(hosts: seq<Host>): (r: seq<Host>) {
    Filter(hosts, (h: Host) => !h.isWitness)
  }

  function HostIds(hosts: seq<Host>): (r: seq<string>)
    ensures |r| == |hosts| && forall i :: 0 <= i < |hosts| ==> r[i] == hosts[i].id
  {
    seq(|hosts|, i requires 0 <= i < |hosts| => hosts[i].id)
  }

  function ShortNames(hosts: seq<Host>): (r: seq<string>)
    ensures |r| == |hosts|
  {
    seq(|hosts|, i requires 0 <= i < |hosts| => ShortName(hosts[i].name))
  }

  /** Two VMs agree on everything except where and how they run. */
  predicate SameVmBut(a: VM, b: VM) {
    b.(hostId := a.hostId, power := a.power, compliance := a.compliance) == a
  }

  /** Whether some component of the VM is placed on the host. */
  predicate HasComponentOn(vm: VM, hostId: string) {
    exists c :: c in vm.components && c.hostId == hostId
  }
}
