/** Initial placement: VM ids and names, the object layout of each storage
    policy (generateVMComponents), the space a VM consumes, and the
    twelve-VM deployment of createVMs. */
module Placement {
  import opened Types
  import Topology
  import Capacity

  // ---------------------------------------------------------------- numerals

  /** Decimal rendering of a number (String(n)). */
  function NatToString(n: nat): (s: string)
    ensures |s| > 0
    ensures forall k :: 0 <= k < |s| ==> '0' <= s[k] <= '9'
    decreases n
  {
    if n < 10 then [Topology.Digit(n)] else NatToString(n / 10) + [Topology.Digit(n % 10)]
  }

  predicate AllDigits(s: string) {
    forall k :: 0 <= k < |s| ==> '0' <= s[k] <= '9'
  }

  /** Decimal value of a digit string (parseInt(s, 10)). */
  function ParseDigits(s: string): nat
    requires AllDigits(s)
  {
    if |s| == 0 then 0 else ParseDigits(s[..|s| - 1]) * 10 + (s[|s| - 1] as int - 48)
  }

  /** Reading back a rendered number gives the number. */
  lemma {:induction false} ParseRendered(n: nat)
    ensures ParseDigits(NatToString(n)) == n
    decreases n
  {
    if n >= 10 {
      var s := NatToString(n);
      assert s[..|s| - 1] == NatToString(n / 10);
      ParseRendered(n / 10);
    }
  }

  /** Id of the i-th deployed VM, counting from zero: "vm1", "vm2", ... */
  function VmId(i: nat): string {
    "vm" + NatToString(i + 1)
  }

  /** Ids of the form "vm" followed by decimal digits, the only ones the lab builds. */
  predicate IsVmId(vmId: string) {
    |vmId| > 2 && vmId[..2] == "vm" && AllDigits(vmId[2..])
  }

  /** parseInt(vmId.replace('vm', ''), 10) for such an id. */
  function VmOrdinal(vmId: string): nat
    requires IsVmId(vmId)
  {
    ParseDigits(vmId[2..])
  }

  /** The ordinal read back from a generated id is the one it was built from,
      so the generated ids are pairwise different. */
  lemma VmIdOrdinal(i: nat)
    ensures IsVmId(VmId(i)) && VmOrdinal(VmId(i)) == i + 1
  {
    assert VmId(i)[2..] == NatToString(i + 1);
    ParseRendered(i + 1);
  }

  lemma VmIdsDistinct(i: nat, j: nat)
    requires i != j
    ensures VmId(i) != VmId(j)
  {
    VmIdOrdinal(i);
    VmIdOrdinal(j);
  }

  /** String(n).padStart(2, '0'). */
  function PadTwo(s: string): (r: string)
    ensures |r| >= 2 && |r| >= |s|
    ensures |s| >= 2 ==> r == s
    ensures |s| < 2 ==> r == seq(2 - |s|, _ => '0') + s
  {
    if |s| == 0 then "00" else if |s| == 1 then "0" + s else s
  }

  function VmName(i: nat): string {
    "App-Server-" + PadTwo(NatToString(i + 1))
  }

  // ---------------------------------------------------------------- object layout

  /** Index of the first element satisfying f (Array.prototype.find). */
  function First<T>(s: seq<T>, f: T -> bool): (r: Option<nat>)
    ensures r.Some? ==> r.value < |s| && f(s[r.value])
    ensures r.Some? ==> forall j :: 0 <= j < r.value ==> !f(s[j])
    ensures r.None? <==> forall j :: 0 <= j < |s| ==> !f(s[j])
  {
    if |s| == 0 then None
    else if f(s[0]) then Some(0)
    else match First(s[1..], f)
      case None => None
      case Some(k) => Some(k + 1)
  }

  function FirstNode(active: seq<Host>, digit: char): Option<nat> {
    First(active, (h: Host) => !h.isWitness && digit in h.id)
  }

  function FirstWitness(active: seq<Host>): Option<nat> {
    First(active, (h: Host) => h.isWitness)
  }

  function Comp(vmId: string, suffix: string, kind: ComponentKind, hostId: string): Component {
    Component(vmId + suffix, kind, hostId, Active)
  }

  /** Host of the component at a given offset: hostIds[(hostIndex + offset) % numHosts]. */
  function OffsetHost(active: seq<Host>, ordinal: nat, offset: nat): string
    requires |active| > 0
  {
    active[(ordinal + offset) % |active|].id
  }

  /** generateVMComponents: the objects of one VM placed over the active hosts. */
  function Components(scenario: Scenario, vmId: string, policy: Policy, active: seq<Host>): seq<Component>
    requires scenario == STANDARD ==> IsVmId(vmId)
  {
    if scenario == ROBO then
      match (FirstNode(active, '1'), FirstNode(active, '2'), FirstWitness(active))
      case (Some(a), Some(b), Some(w)) =>
        [Comp(vmId, "-home", VMHome, active[a].id), Comp(vmId, "-data-1", DataReplica, active[a].id),
         Comp(vmId, "-data-2", DataReplica, active[b].id), Comp(vmId, "-witness", WitnessComponent, active[w].id)]
      case _ => []
    else if |active| < 3 then []
    else
      var n := VmOrdinal(vmId);
      var home := Comp(vmId, "-home", VMHome, active[0].id);
      if policy == RAID1_FTT3 && |active| >= 7 then
        [home,
         Comp(vmId, "-d1", DataReplica, OffsetHost(active, n, 1)),
         Comp(vmId, "-d2", DataReplica, OffsetHost(active, n, 2)),
         Comp(vmId, "-d3", DataReplica, OffsetHost(active, n, 3)),
         Comp(vmId, "-d4", DataReplica, OffsetHost(active, n, 4)),
         Comp(vmId, "-w1", WitnessComponent, OffsetHost(active, n, 5)),
         Comp(vmId, "-w2", WitnessComponent, OffsetHost(active, n, 6)),
         Comp(vmId, "-w3", WitnessComponent, OffsetHost(active, n, 0))]
      else
        [home,
         Comp(vmId, "-d1", DataReplica, OffsetHost(active, n, 1)),
         Comp(vmId, "-d2", DataReplica, OffsetHost(active, n, 2)),
         Comp(vmId, "-w1", WitnessComponent, OffsetHost(active, n, 3))]
  }

  lemma {:induction false} MulAtLeast(t: int, n: nat)
    requires t >= 1
    ensures t * n >= n
    decreases t
  {
    if t > 1 {
      MulAtLeast(t - 1, n);
      assert t * n == (t - 1) * n + n;
    }
  }

  lemma {:induction false} MulAtMost(t: int, n: nat)
    requires t <= 0
    ensures t * n <= 0
    decreases -t
  {
    if t < 0 {
      MulAtMost(t + 1, n);
      assert t * n == (t + 1) * n - n;
    }
  }

  /** Distinct offsets below the modulus land on distinct residues. */
  lemma ModDistinct(a: nat, i: nat, j: nat, n: nat)
    requires i < j && j - i < n
    ensures (a + i) % n != (a + j) % n
  {
    var x, y := a + i, a + j;
    var qx, qy := x / n, y / n;
    var rx, ry := x % n, y % n;
    assert x == qx * n + rx;
    assert y == qy * n + ry;
    if rx == ry {
      var t := qy - qx;
      assert t * n == qy * n - qx * n;
      assert t * n == j - i;
      if t >= 1 {
        MulAtLeast(t, n);
      } else {
        MulAtMost(t, n);
      }
    }
  }

  /** Offset of the object at position p + 1 (after VM Home) in the layout:
      1, 2, 3 for the narrow layout, 1, ..., 6, 0 for the wide one. */
  function LayoutOffset(wide: bool, p: nat): nat {
    if wide && p == 6 then 0 else p + 1
  }

  /** Hosts an index list points to are pairwise different when the ids are unique. */
  predicate DistinctHosts(cs: seq<Component>) {
    forall p, q :: 0 <= p < q < |cs| ==> cs[p].hostId != cs[q].hostId
  }

  /** Where the STANDARD layout puts each object after VM Home: the host at
      the object's offset from the VM's ordinal, counted round the active hosts. */
  lemma StandardLayoutHosts(vmId: string, policy: Policy, active: seq<Host>)
    requires IsVmId(vmId) && |active| >= 3
    ensures var cs := Components(STANDARD, vmId, policy, active);
            var wide := policy == RAID1_FTT3 && |active| >= 7;
            |cs| == (if wide then 8 else 4) &&
            cs[0] == Comp(vmId, "-home", VMHome, active[0].id) &&
            forall p :: 1 <= p < |cs| ==>
              cs[p].status == Active &&
              cs[p].hostId == active[(VmOrdinal(vmId) + LayoutOffset(wide, p - 1)) % |active|].id &&
              (cs[p].kind == DataReplica <==> p <= (if wide then 4 else 2)) &&
              (cs[p].kind == WitnessComponent <==> p > (if wide then 4 else 2))
  {
  }

  /** The layout offsets of one VM fall on pairwise different active hosts. */
  lemma LayoutOffsetsDistinct(n: nat, wide: bool, k: nat, p: nat, q: nat)
    requires p < q < (if wide then 7 else 3)
    requires k >= (if wide then 7 else 3)
    ensures (n + LayoutOffset(wide, p)) % k != (n + LayoutOffset(wide, q)) % k
  {
    var a, b := LayoutOffset(wide, p), LayoutOffset(wide, q);
    if a < b { ModDistinct(n, a, b, k); } else { ModDistinct(n, b, a, k); }
  }

  /** STANDARD layout: nothing below three active hosts; otherwise VM Home on
      the first active host, then FTT + 1 data replicas and FTT witnesses for
      RAID1_FTT3 on seven hosts or more, two replicas and one witness otherwise,
      and all objects but VM Home on pairwise different active hosts. */
  lemma StandardLayout(vmId: string, policy: Policy, active: seq<Host>)
    requires IsVmId(vmId) && UniqueHostIds(active)
    ensures |active| < 3 ==> Components(STANDARD, vmId, policy, active) == []
    ensures |active| >= 3 ==>
              var cs := Components(STANDARD, vmId, policy, active);
              var wide := policy == RAID1_FTT3 && |active| >= 7;
              |cs| == (if wide then 8 else 4) &&
              cs[0].kind == VMHome && cs[0].hostId == active[0].id &&
              (forall p :: 1 <= p < |cs| ==>
                 cs[p].status == Active &&
                 (cs[p].kind == DataReplica <==> p <= (if wide then 4 else 2)) &&
                 (cs[p].kind == WitnessComponent <==> p > (if wide then 4 else 2)) &&
                 exists h :: h in active && h.id == cs[p].hostId) &&
              DistinctHosts(cs[1..])
  {
    if |active| >= 3 {
      StandardLayoutHosts(vmId, policy, active);
      StandardLayoutOnActive(vmId, policy, active);
      StandardLayoutDistinct(vmId, policy, active);
    }
  }

  /** Every object of the STANDARD layout sits on an active host. */
  lemma StandardLayoutOnActive(vmId: string, policy: Policy, active: seq<Host>)
    requires IsVmId(vmId) && |active| >= 3
    ensures var cs := Components(STANDARD, vmId, policy, active);
            forall p :: 1 <= p < |cs| ==> exists h :: h in active && h.id == cs[p].hostId
  {
    StandardLayoutHosts(vmId, policy, active);
    var cs := Components(STANDARD, vmId, policy, active);
    var n := VmOrdinal(vmId);
    var wide := policy == RAID1_FTT3 && |active| >= 7;
    forall p | 1 <= p < |cs| ensures exists h :: h in active && h.id == cs[p].hostId {
      assert active[(n + LayoutOffset(wide, p - 1)) % |active|] in active;
    }
  }

  /** The objects after VM Home sit on pairwise different hosts. */
  lemma StandardLayoutDistinct(vmId: string, policy: Policy, active: seq<Host>)
    requires IsVmId(vmId) && |active| >= 3 && UniqueHostIds(active)
    ensures DistinctHosts(Components(STANDARD, vmId, policy, active)[1..])
  {
    var cs := Components(STANDARD, vmId, policy, active);
    var wide := policy == RAID1_FTT3 && |active| >= 7;
    StandardLayoutHosts(vmId, policy, active);
    assert |active| >= (if wide then 7 else 3);
    OffsetHostsDistinct(cs, active, VmOrdinal(vmId), wide);
  }

  /** Objects placed at the layout offsets of one VM sit on pairwise different hosts. */
  lemma OffsetHostsDistinct(cs: seq<Component>, active: seq<Host>, n: nat, wide: bool)
    requires |cs| == (if wide then 8 else 4) && |active| >= (if wide then 7 else 3) && UniqueHostIds(active)
    requires forall p :: 1 <= p < |cs| ==> cs[p].hostId == active[(n + LayoutOffset(wide, p - 1)) % |active|].id
    ensures DistinctHosts(cs[1..])
  {
    var k := |active|;
    forall p, q | 0 <= p < q < |cs[1..]|
      ensures cs[1..][p].hostId != cs[1..][q].hostId
    {
      assert cs[1..][p] == cs[p + 1] && cs[1..][q] == cs[q + 1];
      LayoutOffsetsDistinct(n, wide, k, p, q);
      var i, j := (n + LayoutOffset(wide, p)) % k, (n + LayoutOffset(wide, q)) % k;
      assert i != j && active[i].id != active[j].id;
    }
  }

  /** Two-node layout: all four objects when both nodes and the witness are
      active, VM Home and the first replica on node 1, the second replica on
      node 2 and the witness object on the witness host; nothing otherwise. */
  lemma RoboLayout(vmId: string, policy: Policy, active: seq<Host>)
    ensures var cs := Components(ROBO, vmId, policy, active);
            (cs != [] <==> FirstNode(active, '1').Some? && FirstNode(active, '2').Some? && FirstWitness(active).Some?) &&
            (cs != [] ==>
               |cs| == 4 &&
               cs[0].hostId == cs[1].hostId == active[FirstNode(active, '1').value].id &&
               cs[2].hostId == active[FirstNode(active, '2').value].id &&
               cs[3].hostId == active[FirstWitness(active).value].id &&
               active[FirstWitness(active).value].isWitness &&
               !active[FirstNode(active, '1').value].isWitness &&
               !active[FirstNode(active, '2').value].isWitness &&
               cs[0].kind == VMHome && cs[1].kind == DataReplica && cs[2].kind == DataReplica &&
               cs[3].kind == WitnessComponent)
  {
  }

  /** VM Home is not kept apart from the replicas: on three hosts the fifth VM
      has its home and its first replica on the same host. */
  lemma HomeMayShareReplicaHost(active: seq<Host>)
    requires |active| == 3
    ensures var cs := Components(STANDARD, VmId(1), RAID1_FTT1, active);
            |cs| == 4 && cs[0].hostId == cs[1].hostId
  {
    VmIdOrdinal(1);
  }

  // ---------------------------------------------------------------- space

  /** Math.ceil(sizeGB * multiplier), with the multiplier as an exact fraction. */
  function UsedSpaceGB(sizeGB: nat, policy: Policy): nat {
    (sizeGB * policy.SpaceNumerator() + policy.SpaceDenominator() - 1) / policy.SpaceDenominator()
  }

  /** The value is the least whole number of GB covering the scaled size. */
  lemma UsedSpaceIsCeiling(sizeGB: nat, policy: Policy)
    ensures var u, num, den := UsedSpaceGB(sizeGB, policy), policy.SpaceNumerator(), policy.SpaceDenominator();
            u * den >= sizeGB * num && (u == 0 || (u - 1) * den < sizeGB * num)
  {
    var num, den := policy.SpaceNumerator(), policy.SpaceDenominator();
    var a := sizeGB * num + den - 1;
    var u := a / den;
    assert a == u * den + a % den;
    assert (u - 1) * den == u * den - den;
  }

  /** Mirroring consumes exactly FTT + 1 copies. */
  lemma MirrorSpace(sizeGB: nat, policy: Policy)
    requires policy.IsMirror()
    ensures UsedSpaceGB(sizeGB, policy) == sizeGB * (policy.Ftt() + 1)
  {
  }

  const VM_SIZES_GB: seq<nat> := [50, 50, 100, 100, 200, 200, 500, 500, 100, 200, 50, 500]
  const NUM_VMS_TO_CREATE: nat := 12

  // ---------------------------------------------------------------- deployment

  /** Hosts the VMs of createVMs may run on. */
  function ComputeHosts(active: seq<Host>): seq<Host> {
    NonWitness(active)
  }

  function NewVm(i: nat, scenario: Scenario, policy: Policy, active: seq<Host>): VM
    requires i < NUM_VMS_TO_CREATE && |ComputeHosts(active)| > 0
  {
    VmIdOrdinal(i);
    var compute := ComputeHosts(active);
    VM(VmId(i), VmName(i), compute[i % |compute|].id, PoweredOn, Compliant, policy, VM_SIZES_GB[i],
       Components(scenario, VmId(i), policy, active), UsedSpaceGB(VM_SIZES_GB[i], policy))
  }

  /** The VMs createVMs builds over the active hosts: twelve, or none when no
      non-witness host is active (the loop breaks at once). */
  function DeployedVms(scenario: Scenario, policy: Policy, active: seq<Host>): seq<VM> {
    if |ComputeHosts(active)| == 0 then []
    else seq(NUM_VMS_TO_CREATE, i requires 0 <= i < NUM_VMS_TO_CREATE => NewVm(i, scenario, policy, active))
  }

  /** createVMs' guard: at least three active hosts in either scenario. */
  function DeployVerdict(hosts: seq<Host>): Outcome {
    if |ActiveHosts(hosts)| < 3 then Rejected(TooFewHostsForVms) else Applied
  }

  /** The loop of createVMs, with its early break. */
  method BuildVms(scenario: Scenario, policy: Policy, active: seq<Host>) returns (newVms: seq<VM>)
    ensures newVms == DeployedVms(scenario, policy, active)
  {
    newVms := [];
    var i := 0;
    while i < NUM_VMS_TO_CREATE
      invariant 0 <= i <= NUM_VMS_TO_CREATE
      invariant |ComputeHosts(active)| == 0 ==> i == 0
      invariant newVms == DeployedVms(scenario, policy, active)[..i]
      decreases NUM_VMS_TO_CREATE - i
    {
      var computeHosts := NonWitness(active);
      if |computeHosts| == 0 {
        break;
      }
      var vm := BuildVm(i, scenario, policy, active, computeHosts);
      DeployedAdvance(scenario, policy, active, newVms, i);
      newVms := newVms + [vm];
      i := i + 1;
    }
  }

  lemma DeployedAdvance(scenario: Scenario, policy: Policy, active: seq<Host>, built: seq<VM>, i: nat)
    requires i < NUM_VMS_TO_CREATE && |ComputeHosts(active)| > 0
    requires built == DeployedVms(scenario, policy, active)[..i]
    ensures built + [NewVm(i, scenario, policy, active)] == DeployedVms(scenario, policy, active)[..i + 1]
  {
    DeployedAt(scenario, policy, active, i);
    PrefixAdvance(DeployedVms(scenario, policy, active), built, NewVm(i, scenario, policy, active), i);
  }

  lemma DeployedAt(scenario: Scenario, policy: Policy, active: seq<Host>, i: nat)
    requires i < NUM_VMS_TO_CREATE && |ComputeHosts(active)| > 0
    ensures |DeployedVms(scenario, policy, active)| == NUM_VMS_TO_CREATE
    ensures DeployedVms(scenario, policy, active)[i] == NewVm(i, scenario, policy, active)
  {
  }

  lemma PrefixAdvance(all: seq<VM>, built: seq<VM>, vm: VM, i: nat)
    requires i < |all| && built == all[..i] && vm == all[i]
    ensures built + [vm] == all[..i + 1]
  {
    assert all[..i + 1] == all[..i] + [all[i]];
  }

  /** One iteration of the createVMs loop: the i-th VM. */
  method BuildVm(i: nat, scenario: Scenario, policy: Policy, active: seq<Host>, computeHosts: seq<Host>) returns (vm: VM)
    requires i < NUM_VMS_TO_CREATE && computeHosts == ComputeHosts(active) && |computeHosts| > 0
    ensures vm == NewVm(i, scenario, policy, active)
  {
    var hostIndex := i % |computeHosts|;
    var vmId := VmId(i);
    VmIdOrdinal(i);
    var sizeGB := VM_SIZES_GB[i];
    vm := VM(vmId, VmName(i), computeHosts[hostIndex].id, PoweredOn, Compliant, policy, sizeGB,
             Components(scenario, vmId, policy, active), UsedSpaceGB(sizeGB, policy));
  }

  /** What one deployed VM is: its generated id and name, powered on and
      compliant, running on the non-witness active host i mod their number,
      with the object layout of its id, sized from the size table and charged
      its policy's space. */
  lemma NewVmShape(i: nat, scenario: Scenario, policy: Policy, active: seq<Host>)
    requires i < NUM_VMS_TO_CREATE && |ComputeHosts(active)| > 0
    ensures var vm := NewVm(i, scenario, policy, active);
            vm.id == VmId(i) && vm.name == VmName(i) && vm.power == PoweredOn && vm.compliance == Compliant &&
            vm.policy == policy && vm.sizeGB == VM_SIZES_GB[i] &&
            vm.usedSpaceGB == UsedSpaceGB(VM_SIZES_GB[i], policy) &&
            (exists h :: h in active && !h.isWitness && h.id == vm.hostId) &&
            vm.hostId == ComputeHosts(active)[i % |ComputeHosts(active)|].id &&
            vm.components == Components(scenario, VmId(i), policy, active)
  {
    var compute := ComputeHosts(active);
    assert compute[i % |compute|] in compute;
  }

  /** A deployment is twelve such VMs with pairwise different ids, or nothing
      when every active host is a witness. */
  lemma DeployedVmsShape(scenario: Scenario, policy: Policy, active: seq<Host>)
    ensures var vms := DeployedVms(scenario, policy, active);
            (vms == [] <==> forall j :: 0 <= j < |active| ==> active[j].isWitness) &&
            (vms != [] ==>
               |vms| == NUM_VMS_TO_CREATE &&
               forall i :: 0 <= i < |vms| ==> vms[i] == NewVm(i, scenario, policy, active)) &&
            (forall i, j :: 0 <= i < j < |vms| ==> vms[i].id != vms[j].id)
  {
    NoComputeHosts(active);
    DeployedIdsDistinct(scenario, policy, active);
    var vms := DeployedVms(scenario, policy, active);
    if |ComputeHosts(active)| > 0 {
      forall i | 0 <= i < |vms| ensures vms[i] == NewVm(i, scenario, policy, active) {
        DeployedAt(scenario, policy, active, i);
      }
    }
  }

  /** createVMs finds no host to place on exactly when every active host is a witness. */
  lemma NoComputeHosts(active: seq<Host>)
    ensures |ComputeHosts(active)| == 0 <==> forall j :: 0 <= j < |active| ==> active[j].isWitness
  {
    FilterEmpty(active, (h: Host) => !h.isWitness);
  }

  lemma DeployedIdsDistinct(scenario: Scenario, policy: Policy, active: seq<Host>)
    ensures var vms := DeployedVms(scenario, policy, active);
            forall i, j :: 0 <= i < j < |vms| ==> vms[i].id != vms[j].id
  {
    var vms := DeployedVms(scenario, policy, active);
    forall i, j | 0 <= i < j < |vms| ensures vms[i].id != vms[j].id {
      VmIdsDistinct(i, j);
    }
  }

  /** Space charged for the first m entries of the size table under one policy. */
  function TableUsedGB(m: nat, policy: Policy): nat
    requires m <= NUM_VMS_TO_CREATE
  {
    if m == 0 then 0 else TableUsedGB(m - 1, policy) + UsedSpaceGB(VM_SIZES_GB[m - 1], policy)
  }

  lemma DeployedUsedPrefix(scenario: Scenario, policy: Policy, active: seq<Host>, m: nat)
    requires |ComputeHosts(active)| > 0 && m <= NUM_VMS_TO_CREATE
    ensures Capacity.UsedCapacityGB(DeployedVms(scenario, policy, active)[..m]) == TableUsedGB(m, policy)
  {
    var vms := DeployedVms(scenario, policy, active);
    forall i | 0 <= i < NUM_VMS_TO_CREATE
      ensures |vms| == NUM_VMS_TO_CREATE && vms[i].usedSpaceGB == UsedSpaceGB(VM_SIZES_GB[i], policy)
    {
      DeployedAt(scenario, policy, active, i);
    }
    ChargedPrefix(vms, policy, m);
  }

  /** Twelve VMs each charged its size-table entry under the policy: the
      first m of them use what the table's first m entries charge. */
  lemma {:induction false} ChargedPrefix(vms: seq<VM>, policy: Policy, m: nat)
    requires |vms| == NUM_VMS_TO_CREATE && m <= NUM_VMS_TO_CREATE
    requires forall i :: 0 <= i < NUM_VMS_TO_CREATE ==> vms[i].usedSpaceGB == UsedSpaceGB(VM_SIZES_GB[i], policy)
    ensures Capacity.UsedCapacityGB(vms[..m]) == TableUsedGB(m, policy)
    decreases m
  {
    if m > 0 {
      assert vms[..m][..m - 1] == vms[..m - 1];
      ChargedPrefix(vms, policy, m - 1);
    }
  }

  /** Datastore consumption of a full deployment, by policy. */
  function DeploymentGB(policy: Policy): nat {
    match policy
    case RAID1_FTT1 => 5100
    case RAID5_FTT1 => 3393
    case RAID1_FTT2 => 7650
    case RAID6_FTT2 => 3825
    case RAID1_FTT3 => 10200
  }

  /** Datastore consumption of a full deployment, whatever the hosts: 5100 GB
      for RAID1_FTT1, 3393 for RAID5_FTT1, 7650 for RAID1_FTT2, 3825 for
      RAID6_FTT2 and 10200 for RAID1_FTT3. */
  lemma DeployedUsedTotal(scenario: Scenario, policy: Policy, active: seq<Host>)
    requires |ComputeHosts(active)| > 0
    ensures Capacity.UsedCapacityGB(DeployedVms(scenario, policy, active)) == DeploymentGB(policy)
  {
    DeployedUsedPrefix(scenario, policy, active, NUM_VMS_TO_CREATE);
    WholePrefix(DeployedVms(scenario, policy, active));
    TableTotals(policy);
  }

  lemma WholePrefix(vms: seq<VM>)
    ensures vms[..|vms|] == vms
  {
  }

  /** The first six entries of the size table: two VMs each of 50, 100 and 200 GB. */
  lemma TableFirstHalf(policy: Policy)
    ensures TableUsedGB(6, policy) == 2 * (UsedSpaceGB(50, policy) + UsedSpaceGB(100, policy) + UsedSpaceGB(200, policy))
  {
    var t := VM_SIZES_GB;
    assert t[0] == 50 && t[1] == 50 && t[2] == 100 && t[3] == 100 && t[4] == 200 && t[5] == 200;
    TableStep(0, policy);
    TableStep(2, policy);
    TableStep(4, policy);
  }

  /** Two more entries of the size table charge what each of them charges. */
  lemma TableStep(m: nat, policy: Policy)
    requires m + 2 <= NUM_VMS_TO_CREATE
    ensures TableUsedGB(m + 2, policy) ==
              TableUsedGB(m, policy) + UsedSpaceGB(VM_SIZES_GB[m], policy) + UsedSpaceGB(VM_SIZES_GB[m + 1], policy)
  {
  }

  /** The other six: two VMs of 500 GB, then one each of 100, 200, 50 and 500 GB. */
  lemma TableSecondHalf(policy: Policy)
    ensures TableUsedGB(NUM_VMS_TO_CREATE, policy) ==
              TableUsedGB(6, policy) + UsedSpaceGB(50, policy) + UsedSpaceGB(100, policy) + UsedSpaceGB(200, policy) +
              3 * UsedSpaceGB(500, policy)
  {
    var t := VM_SIZES_GB;
    assert t[6] == 500 && t[7] == 500 && t[8] == 100 && t[9] == 200 && t[10] == 50 && t[11] == 500;
    TableStep(6, policy);
    TableStep(8, policy);
    TableStep(10, policy);
  }

  /** The size table holds three VMs each of 50, 100, 200 and 500 GB. */
  lemma TableTotal(policy: Policy)
    ensures TableUsedGB(NUM_VMS_TO_CREATE, policy) ==
              3 * (UsedSpaceGB(50, policy) + UsedSpaceGB(100, policy) + UsedSpaceGB(200, policy) + UsedSpaceGB(500, policy))
  {
    TableFirstHalf(policy);
    TableSecondHalf(policy);
  }

  /** The size table's total under each policy. */
  lemma TableTotals(policy: Policy)
    ensures TableUsedGB(NUM_VMS_TO_CREATE, policy) == DeploymentGB(policy)
  {
    TableTotal(policy);
    PerSizeTotals(policy);
  }

  /** One VM of each size, 50, 100, 200 and 500 GB, charged under each policy. */
  lemma PerSizeTotals(policy: Policy)
    ensures 3 * (UsedSpaceGB(50, policy) + UsedSpaceGB(100, policy) + UsedSpaceGB(200, policy) + UsedSpaceGB(500, policy)) ==
            DeploymentGB(policy)
  {
    match policy
    case RAID1_FTT1 =>
    case RAID5_FTT1 => ErasureSpace();
    case RAID1_FTT2 =>
    case RAID6_FTT2 => ErasureSpace();
    case RAID1_FTT3 =>
  }

  /** RAID-5 charges 1.33 and RAID-6 1.5 times the size, rounded up. */
  lemma ErasureSpace()
    ensures UsedSpaceGB(50, RAID5_FTT1) == 67 && UsedSpaceGB(100, RAID5_FTT1) == 133
    ensures UsedSpaceGB(200, RAID5_FTT1) == 266 && UsedSpaceGB(500, RAID5_FTT1) == 665
    ensures UsedSpaceGB(50, RAID6_FTT2) == 75 && UsedSpaceGB(100, RAID6_FTT2) == 150
    ensures UsedSpaceGB(200, RAID6_FTT2) == 300 && UsedSpaceGB(500, RAID6_FTT2) == 750
  {
  }
}
