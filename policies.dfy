/** The storage-policy selector: a policy can be chosen only when enough
    hosts take part in the cluster. */
module Policies {
  import opened Types
  import opened Topology

  /** Hosts the selector counts: Connected or in Maintenance, witness included. */
  predicate Counted(h: Host) {
    h.status == Connected || h.status == Maintenance
  }

  function CountedHosts(hosts: seq<Host>): nat {
    |Filter(hosts, (h: Host) => Counted(h))|
  }

  /** The selector enables a policy when the counted hosts reach its requirement. */
  predicate PolicyAvailable(p: Policy, hosts: seq<Host>) {
    CountedHosts(hosts) >= p.RequiredHosts()
  }

  /** The table's requirements: 2 FTT + 1 hosts for mirroring, 2 FTT + 2 for
      erasure coding; RAID-5 and RAID-6 exist only at FTT 1 and 2. */
  lemma RequiredHostsByFtt(p: Policy)
    ensures p.IsMirror() ==> p.RequiredHosts() == 2 * p.Ftt() + 1
    ensures !p.IsMirror() ==> p.RequiredHosts() == 2 * p.Ftt() + 2 && (p.Ftt() == 1 <==> p == RAID5_FTT1)
    ensures p.RequiredHosts() > p.Ftt() + 1
  {
  }

  /** The table read top to bottom: each policy needs one host more than the
      one before, from 3 to 7, so an available policy makes every earlier one
      available. */
  lemma PolicyTableOrder(hosts: seq<Host>)
    ensures var table := [RAID1_FTT1, RAID5_FTT1, RAID1_FTT2, RAID6_FTT2, RAID1_FTT3];
            (forall i :: 0 <= i < 5 ==> table[i].RequiredHosts() == 3 + i) &&
            forall i, j :: 0 <= i <= j < 5 && PolicyAvailable(table[j], hosts) ==> PolicyAvailable(table[i], hosts)
  {
  }

  /** Only the counting matters: two host lists that agree host by host on
      being counted enable the same policies. */
  lemma {:induction false} CountedPointwise(a: seq<Host>, b: seq<Host>)
    requires |a| == |b| && forall i :: 0 <= i < |a| ==> (Counted(a[i]) <==> Counted(b[i]))
    ensures CountedHosts(a) == CountedHosts(b)
    decreases |a|
  {
    if |a| > 0 {
      forall i | 0 <= i < |a| - 1 ensures Counted(a[1..][i]) <==> Counted(b[1..][i]) {
        assert a[1..][i] == a[i + 1] && b[1..][i] == b[i + 1];
      }
      CountedPointwise(a[1..], b[1..]);
    }
  }

  /** Moving a host between Connected and Maintenance (either maintenance
      path) leaves the selectable policies as they were. */
  lemma MaintenanceKeepsPolicies(hosts: seq<Host>, id: string, status: HostStatus, p: Policy)
    requires status == Connected || status == Maintenance
    requires forall i :: 0 <= i < |hosts| && hosts[i].id == id ==> Counted(hosts[i])
    ensures PolicyAvailable(p, SetStatus(hosts, id, status)) <==> PolicyAvailable(p, hosts)
  {
    CountedPointwise(hosts, SetStatus(hosts, id, status));
  }

  lemma CountedCons(hosts: seq<Host>)
    requires |hosts| > 0
    ensures CountedHosts(hosts) == (if Counted(hosts[0]) then 1 else 0) + CountedHosts(hosts[1..])
  {
  }

  lemma SetStatusCons(hosts: seq<Host>, id: string, status: HostStatus)
    requires |hosts| > 0
    ensures var t := SetStatus(hosts, id, status);
            t[0] == (if hosts[0].id == id then hosts[0].(status := status) else hosts[0]) &&
            t[1..] == SetStatus(hosts[1..], id, status)
  {
  }

  /** Past the first host, ids are unique and none repeats the first. */
  lemma UniqueTail(hosts: seq<Host>)
    requires |hosts| > 0 && UniqueHostIds(hosts)
    ensures UniqueHostIds(hosts[1..])
    ensures forall k :: 0 <= k < |hosts[1..]| ==> hosts[1..][k].id != hosts[0].id
  {
    forall k | 0 <= k < |hosts[1..]| ensures hosts[1..][k].id != hosts[0].id {
      assert hosts[1..][k] == hosts[k + 1];
    }
  }

  /** Setting the status of an id no host has changes nothing. */
  lemma SetStatusAbsent(hosts: seq<Host>, id: string, status: HostStatus)
    requires forall k :: 0 <= k < |hosts| ==> hosts[k].id != id
    ensures SetStatus(hosts, id, status) == hosts
  {
  }

  /** Disconnecting a counted host (a failure) takes one host off the count. */
  lemma {:induction false} DisconnectLowersCount(hosts: seq<Host>, id: string)
    requires UniqueHostIds(hosts)
    requires exists i :: 0 <= i < |hosts| && hosts[i].id == id && Counted(hosts[i])
    ensures CountedHosts(SetStatus(hosts, id, Disconnected)) + 1 == CountedHosts(hosts)
    decreases |hosts|
  {
    var t := SetStatus(hosts, id, Disconnected);
    CountedCons(hosts);
    CountedCons(t);
    SetStatusCons(hosts, id, Disconnected);
    UniqueTail(hosts);
    if hosts[0].id == id {
      SetStatusAbsent(hosts[1..], id, Disconnected);
    } else {
      var i :| 0 <= i < |hosts| && hosts[i].id == id && Counted(hosts[i]);
      assert hosts[1..][i - 1] == hosts[i];
      DisconnectLowersCount(hosts[1..], id);
    }
  }
}
