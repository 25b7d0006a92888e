/** Capacity ledger: raw datastore capacity and the space the VMs consume, in GB. */
module Capacity {
  import opened Types

  /** A disk adds its size to the datastore when it is claimed for capacity
      (OSA) or for the storage pool (ESA), whatever its health. */
  function DiskRawGB(d: Disk): nat {
    if d.claimedAs == Capacity || d.claimedAs == StoragePool then d.capacityGB else 0
  }

  function DisksRawGB(disks: seq<Disk>): nat {
    if |disks| == 0 then 0 else DisksRawGB(disks[..|disks| - 1]) + DiskRawGB(disks[|disks| - 1])
  }

  /** Hosts that back the datastore: Connected or in Maintenance, not the witness. */
  predicate BacksDatastore(h: Host) {
    (h.status == Connected || h.status == Maintenance) && !h.isWitness
  }

  function HostRawGB(h: Host): nat {
    if BacksDatastore(h) then DisksRawGB(h.disks) else 0
  }

  /** Raw capacity of the cluster (calculateTotalCapacity, in GB). */
  function RawCapacityGB(hosts: seq<Host>): nat {
    if |hosts| == 0 then 0 else RawCapacityGB(hosts[..|hosts| - 1]) + HostRawGB(hosts[|hosts| - 1])
  }

  /** Space consumed by the VMs (calculateUsedCapacity, in GB). */
  function UsedCapacityGB(vms: seq<VM>): nat {
    if |vms| == 0 then 0 else UsedCapacityGB(vms[..|vms| - 1]) + vms[|vms| - 1].usedSpaceGB
  }

  /** calculateTotalCapacity: the nested forEach accumulating totalGB. */
  method ComputeTotalCapacity(hosts: seq<Host>) returns (totalGB: nat)
    ensures totalGB == RawCapacityGB(hosts)
  {
    totalGB := 0;
    for i := 0 to |hosts|
      invariant totalGB == RawCapacityGB(hosts[..i])
    {
      var h := hosts[i];
      assert hosts[..i + 1][..i] == hosts[..i];
      if (h.status == Connected || h.status == Maintenance) && !h.isWitness {
        var hostGB := 0;
        for k := 0 to |h.disks|
          invariant hostGB == DisksRawGB(h.disks[..k])
        {
          var d := h.disks[k];
          assert h.disks[..k + 1][..k] == h.disks[..k];
          if d.claimedAs == Capacity || d.claimedAs == StoragePool {
            hostGB := hostGB + d.capacityGB;
          }
        }
        assert h.disks[..|h.disks|] == h.disks;
        totalGB := totalGB + hostGB;
      }
    }
    assert hosts[..|hosts|] == hosts;
  }

  /** calculateUsedCapacity: the forEach accumulating totalUsedGB. */
  method ComputeUsedCapacity(vms: seq<VM>) returns (totalUsedGB: nat)
    ensures totalUsedGB == UsedCapacityGB(vms)
  {
    totalUsedGB := 0;
    for i := 0 to |vms|
      invariant totalUsedGB == UsedCapacityGB(vms[..i])
    {
      assert vms[..i + 1][..i] == vms[..i];
      totalUsedGB := totalUsedGB + vms[i].usedSpaceGB;
    }
    assert vms[..|vms|] == vms;
  }

  /** The ledger is additive over any split of the host list. */
  lemma {:induction false} RawCapacityAppend(a: seq<Host>, b: seq<Host>)
    ensures RawCapacityGB(a + b) == RawCapacityGB(a) + RawCapacityGB(b)
    decreases |b|
  {
    if |b| == 0 {
      assert a + b == a;
    } else {
      assert (a + b)[..|a + b| - 1] == a + b[..|b| - 1];
      RawCapacityAppend(a, b[..|b| - 1]);
    }
  }

  /** Hosts that contribute the same amount give the same ledger total. */
  lemma {:induction false} RawCapacityPointwise(a: seq<Host>, b: seq<Host>)
    requires |a| == |b|
    requires forall i :: 0 <= i < |a| ==> HostRawGB(a[i]) == HostRawGB(b[i])
    ensures RawCapacityGB(a) == RawCapacityGB(b)
    decreases |a|
  {
    if |a| > 0 {
      RawCapacityPointwise(a[..|a| - 1], b[..|b| - 1]);
    }
  }

  /** A host outside the datastore (Unmanaged, Disconnected or the witness)
      adds nothing to it. */
  lemma {:induction false} RawCapacityIgnoresIdle(hosts: seq<Host>)
    requires forall i :: 0 <= i < |hosts| ==> !BacksDatastore(hosts[i])
    ensures RawCapacityGB(hosts) == 0
    decreases |hosts|
  {
    if |hosts| > 0 {
      RawCapacityIgnoresIdle(hosts[..|hosts| - 1]);
    }
  }

  /** Disk health never enters the raw figure: same claims and sizes, same total. */
  lemma {:induction false} DisksRawIgnoresHealth(a: seq<Disk>, b: seq<Disk>)
    requires |a| == |b|
    requires forall k :: 0 <= k < |a| ==> a[k].claimedAs == b[k].claimedAs && a[k].capacityGB == b[k].capacityGB
    ensures DisksRawGB(a) == DisksRawGB(b)
    decreases |a|
  {
    if |a| > 0 {
      DisksRawIgnoresHealth(a[..|a| - 1], b[..|b| - 1]);
    }
  }

  /** The used figure is additive over any split of the VM list. */
  lemma {:induction false} UsedCapacityAppend(a: seq<VM>, b: seq<VM>)
    ensures UsedCapacityGB(a + b) == UsedCapacityGB(a) + UsedCapacityGB(b)
    decreases |b|
  {
    if |b| == 0 {
      assert a + b == a;
    } else {
      assert (a + b)[..|a + b| - 1] == a + b[..|b| - 1];
      UsedCapacityAppend(a, b[..|b| - 1]);
    }
  }
}
