/** Validation rules: the toggling disk claim with its architecture-specific
    rejections, and the two readiness checks of the vSAN wizard. */
module Claims {
  import opened Types

  predicate HasOtherCache(disks: seq<Disk>, diskId: string) {
    exists j :: 0 <= j < |disks| && disks[j].id != diskId && disks[j].claimedAs == Cache
  }

  /** The claim a request leaves on a data disk: asking for the role the disk
      already holds releases it. */
  function NewClaim(d: Disk, role: Role): Claim {
    if d.claimedAs == role then Unclaimed else role
  }

  /** What claimDisk does on the named host: Skipped when the disk is not there
      or a witness is asked for a data role, Rejected for a claim the
      architecture forbids, Applied otherwise. */
  function ClaimVerdict(h: Host, arch: Architecture, diskId: string, role: Role): Outcome {
    match FindDisk(h.disks, diskId)
    case None => Skipped
    case Some(k) =>
      if h.isWitness then (if role != Witness then Skipped else Applied)
      else
        var d := h.disks[k];
        if NewClaim(d, role) == Unclaimed then Applied
        else if arch == OSA && role == Cache && HasOtherCache(h.disks, diskId) then Rejected(SecondCacheDisk)
        else if arch == OSA && role == Capacity && d.media == SSD then Rejected(SsdAsCapacity)
        else if arch == ESA && role == StoragePool && d.media == HDD then Rejected(HddInEsaPool)
        else Applied
  }

  function ToggleWitnessClaim(d: Disk): Disk {
    d.(claimedAs := if d.claimedAs == Witness then Unclaimed else Witness)
  }

  /** claimDisk on one host. A witness toggles the Witness claim of all its
      disks; a data host sets the claim of the named disk. */
  function ClaimOnHost(h: Host, arch: Architecture, diskId: string, role: Role): (r: Host)
    ensures r.id == h.id
  {
    if ClaimVerdict(h, arch, diskId, role) != Applied then h
    else if h.isWitness then
      h.(disks := seq(|h.disks|, j requires 0 <= j < |h.disks| => ToggleWitnessClaim(h.disks[j])))
    else
      var c := NewClaim(h.disks[FindDisk(h.disks, diskId).value], role);
      h.(disks := seq(|h.disks|, j requires 0 <= j < |h.disks| =>
                     if h.disks[j].id == diskId then h.disks[j].(claimedAs := c) else h.disks[j]))
  }

  /** claimDisk over the cluster: only the named host is touched. */
  function ClaimDisk(hosts: seq<Host>, arch: Architecture, hostId: string, diskId: string, role: Role): (r: seq<Host>)
    ensures SameIds(hosts, r)
    ensures forall i :: 0 <= i < |hosts| && hosts[i].id != hostId ==> r[i] == hosts[i]
  {
    seq(|hosts|, i requires 0 <= i < |hosts| =>
      if hosts[i].id == hostId then ClaimOnHost(hosts[i], arch, diskId, role) else hosts[i])
  }

  /** The outcome claimDisk reports: that of the first host with the id. */
  function ClaimDiskVerdict(hosts: seq<Host>, arch: Architecture, hostId: string, diskId: string, role: Role): Outcome {
    match FindHost(hosts, hostId)
    case None => Skipped
    case Some(i) => ClaimVerdict(hosts[i], arch, diskId, role)
  }

  // ---------------------------------------------------------------- claim laws

  /** Toggle law: asking a data disk for the role it already holds releases it. */
  lemma ClaimReleases(h: Host, arch: Architecture, diskId: string, role: Role, k: nat)
    requires !h.isWitness && UniqueDiskIds(h.disks)
    requires k < |h.disks| && h.disks[k].id == diskId && h.disks[k].claimedAs == role
    ensures ClaimVerdict(h, arch, diskId, role) == Applied
    ensures ClaimOnHost(h, arch, diskId, role).disks == h.disks[k := h.disks[k].(claimedAs := Unclaimed)]
  {
    assert FindDisk(h.disks, diskId) == Some(k);
  }

  /** Claiming the same role twice on an unclaimed data disk restores the host,
      whether the first claim was admitted or refused. */
  lemma ClaimTwiceIsIdentity(h: Host, arch: Architecture, diskId: string, role: Role, k: nat)
    requires !h.isWitness && UniqueDiskIds(h.disks)
    requires k < |h.disks| && h.disks[k].id == diskId && h.disks[k].claimedAs == Unclaimed
    ensures ClaimOnHost(ClaimOnHost(h, arch, diskId, role), arch, diskId, role) == h
  {
    assert FindDisk(h.disks, diskId) == Some(k);
    var h1 := ClaimOnHost(h, arch, diskId, role);
    if ClaimVerdict(h, arch, diskId, role) == Applied {
      assert h1.disks == h.disks[k := h.disks[k].(claimedAs := role)];
      assert UniqueDiskIds(h1.disks) by {
        forall a, b | 0 <= a < b < |h1.disks| ensures h1.disks[a].id != h1.disks[b].id {
          assert h1.disks[a].id == h.disks[a].id && h1.disks[b].id == h.disks[b].id;
        }
      }
      ClaimReleases(h1, arch, diskId, role, k);
      assert ClaimOnHost(h1, arch, diskId, role).disks == h.disks;
    }
  }

  /** Rejections: on a data host, a second OSA Cache disk, an SSD as OSA
      Capacity or an HDD in the ESA pool is refused exactly when the request
      would not release an existing claim, and a refused claim changes nothing. */
  lemma ClaimRejections(h: Host, arch: Architecture, diskId: string, role: Role, k: nat)
    requires !h.isWitness && UniqueDiskIds(h.disks)
    requires k < |h.disks| && h.disks[k].id == diskId
    ensures ClaimVerdict(h, arch, diskId, role).Rejected? <==>
              h.disks[k].claimedAs != role &&
              ((arch == OSA && role == Cache && HasOtherCache(h.disks, diskId)) ||
               (arch == OSA && role == Capacity && h.disks[k].media == SSD) ||
               (arch == ESA && role == StoragePool && h.disks[k].media == HDD))
    ensures ClaimVerdict(h, arch, diskId, role).Rejected? ==> ClaimOnHost(h, arch, diskId, role) == h
  {
    assert FindDisk(h.disks, diskId) == Some(k);
  }

  /** Frame: an admitted claim on a data host changes only the claim of the
      named disk, to the role asked for or back to Unclaimed. */
  lemma ClaimFrame(h: Host, arch: Architecture, diskId: string, role: Role, k: nat)
    requires !h.isWitness && UniqueDiskIds(h.disks)
    requires k < |h.disks| && h.disks[k].id == diskId
    requires ClaimVerdict(h, arch, diskId, role) == Applied
    ensures ClaimOnHost(h, arch, diskId, role) ==
              h.(disks := h.disks[k := h.disks[k].(claimedAs := NewClaim(h.disks[k], role))])
  {
    assert FindDisk(h.disks, diskId) == Some(k);
  }

  /** The witness accepts only the Witness role, and then toggles every disk it has. */
  lemma WitnessClaim(h: Host, arch: Architecture, diskId: string, role: Role)
    requires h.isWitness && HasDisk(h, diskId)
    ensures role != Witness ==> ClaimOnHost(h, arch, diskId, role) == h
    ensures role == Witness ==>
              |ClaimOnHost(h, arch, diskId, role).disks| == |h.disks| &&
              forall j :: 0 <= j < |h.disks| ==>
                (ClaimOnHost(h, arch, diskId, role).disks[j].claimedAs == Witness <==> h.disks[j].claimedAs != Witness)
  {
  }

  // ---------------------------------------------------------------- readiness

  /** Connected hosts whose vSAN VMkernel is still off. */
  function UnconfiguredHosts(hosts: seq<Host>): seq<Host> {
    Filter(hosts, (h: Host) => h.status == Connected && !h.vmkConfigured)
  }

  /** validateServicesAndProceed. */
  function ServicesCheck(hosts: seq<Host>): Outcome {
    var missing := UnconfiguredHosts(hosts);
    if |missing| > 0 then Rejected(VmkernelNotEnabled(ShortNames(missing))) else Applied
  }

  /** The services step passes exactly when every Connected host has its VMkernel on. */
  lemma ServicesCheckIff(hosts: seq<Host>)
    ensures ServicesCheck(hosts) == Applied <==>
              forall i :: 0 <= i < |hosts| && hosts[i].status == Connected ==> hosts[i].vmkConfigured
  {
    FilterEmpty(hosts, (h: Host) => h.status == Connected && !h.vmkConfigured);
  }

  function CountClaimed(disks: seq<Disk>, c: Claim): nat {
    if |disks| == 0 then 0
    else CountClaimed(disks[..|disks| - 1], c) + (if disks[|disks| - 1].claimedAs == c then 1 else 0)
  }

  /** The per-host disk-group rule: OSA needs exactly one Cache and some
      Capacity disk, ESA at least two StoragePool disks. */
  predicate DiskGroupValid(h: Host, arch: Architecture) {
    if arch == OSA then CountClaimed(h.disks, Cache) == 1 && CountClaimed(h.disks, Capacity) > 0
    else CountClaimed(h.disks, StoragePool) >= 2
  }

  /** Connected, VMkernel-enabled hosts whose disk group breaks the rule. */
  function InvalidDiskHosts(hosts: seq<Host>, arch: Architecture): seq<Host> {
    Filter(hosts, (h: Host) => h.status == Connected && h.vmkConfigured && !DiskGroupValid(h, arch))
  }

  /** The first witness host, if any (hosts.find(h => h.isWitness)). */
  function FindWitness(hosts: seq<Host>): (r: Option<nat>)
    ensures r.Some? ==> r.value < |hosts| && hosts[r.value].isWitness
    ensures r.Some? ==> forall j :: 0 <= j < r.value ==> !hosts[j].isWitness
    ensures r.None? <==> forall j :: 0 <= j < |hosts| ==> !hosts[j].isWitness
  {
    if |hosts| == 0 then None
    else if hosts[0].isWitness then Some(0)
    else match FindWitness(hosts[1..])
      case None => None
      case Some(k) => Some(k + 1)
  }

  predicate HasWitnessClaim(h: Host) {
    exists j :: 0 <= j < |h.disks| && h.disks[j].claimedAs == Witness
  }

  /** validateDisksAndProceed: ROBO checks only the witness metadata claim,
      STANDARD only the disk groups. */
  function DisksCheck(hosts: seq<Host>, scenario: Scenario, arch: Architecture): Outcome {
    if scenario == ROBO then
      match FindWitness(hosts)
      case Some(w) =>
        if hosts[w].status == Connected && !HasWitnessClaim(hosts[w]) then Rejected(WitnessDiskUnclaimed)
        else Applied
      case None => Applied
    else
      var invalid := InvalidDiskHosts(hosts, arch);
      if |invalid| > 0 then Rejected(DiskLayoutInvalid(ShortNames(invalid))) else Applied
  }

  /** Both directions of the disk step: STANDARD passes exactly when every
      Connected VMkernel-enabled host has a valid disk group; ROBO passes exactly
      when the (first) witness is not Connected or holds a Witness claim. */
  lemma DisksCheckIff(hosts: seq<Host>, scenario: Scenario, arch: Architecture)
    ensures scenario == STANDARD ==>
              (DisksCheck(hosts, scenario, arch) == Applied <==>
                 forall i :: 0 <= i < |hosts| && hosts[i].status == Connected && hosts[i].vmkConfigured ==>
                   DiskGroupValid(hosts[i], arch))
    ensures scenario == ROBO ==>
              (DisksCheck(hosts, scenario, arch) == Applied <==>
                 forall w :: (0 <= w < |hosts| && hosts[w].isWitness && hosts[w].status == Connected &&
                              (forall j :: 0 <= j < w ==> !hosts[j].isWitness)) ==>
                   HasWitnessClaim(hosts[w]))
  {
    FilterEmpty(hosts, (h: Host) => h.status == Connected && h.vmkConfigured && !DiskGroupValid(h, arch));
  }

  /** The counting rule agrees with the OSA reading "exactly one Cache disk":
      there is a Cache disk, and no other disk is claimed Cache. */
  lemma OneCacheDisk(disks: seq<Disk>)
    ensures CountClaimed(disks, Cache) == 1 <==>
              exists k :: 0 <= k < |disks| && disks[k].claimedAs == Cache &&
                forall j :: 0 <= j < |disks| && j != k ==> disks[j].claimedAs != Cache
  {
    if CountClaimed(disks, Cache) == 1 {
      CountedCacheIsSole(disks);
    } else if exists k :: 0 <= k < |disks| && disks[k].claimedAs == Cache &&
                forall j :: 0 <= j < |disks| && j != k ==> disks[j].claimedAs != Cache {
      var k :| 0 <= k < |disks| && disks[k].claimedAs == Cache &&
               forall j :: 0 <= j < |disks| && j != k ==> disks[j].claimedAs != Cache;
      SoleCacheCounted(disks, k);
    }
  }

  /** A Cache disk counted once is the only one. */
  lemma {:induction false} CountedCacheIsSole(disks: seq<Disk>)
    requires CountClaimed(disks, Cache) == 1
    ensures exists k :: 0 <= k < |disks| && disks[k].claimedAs == Cache &&
              forall j :: 0 <= j < |disks| && j != k ==> disks[j].claimedAs != Cache
    decreases |disks|
  {
    var init := disks[..|disks| - 1];
    var n := |disks| - 1;
    assert forall j :: 0 <= j < n ==> disks[j] == init[j];
    if disks[n].claimedAs == Cache {
      NoCacheDisk(init);
      assert forall j :: 0 <= j < |disks| && j != n ==> disks[j].claimedAs != Cache;
    } else {
      CountedCacheIsSole(init);
      var k :| 0 <= k < n && init[k].claimedAs == Cache &&
               forall j :: 0 <= j < n && j != k ==> init[j].claimedAs != Cache;
      assert forall j :: 0 <= j < |disks| && j != k ==> disks[j].claimedAs != Cache;
    }
  }

  /** A sole Cache disk is counted once. */
  lemma {:induction false} SoleCacheCounted(disks: seq<Disk>, k: nat)
    requires k < |disks| && disks[k].claimedAs == Cache
    requires forall j :: 0 <= j < |disks| && j != k ==> disks[j].claimedAs != Cache
    ensures CountClaimed(disks, Cache) == 1
    decreases |disks|
  {
    var init := disks[..|disks| - 1];
    var n := |disks| - 1;
    assert forall j :: 0 <= j < n ==> init[j] == disks[j];
    if k == n {
      NoCacheDisk(init);
    } else {
      SoleCacheCounted(init, k);
    }
  }

  lemma {:induction false} NoCacheDisk(disks: seq<Disk>)
    ensures CountClaimed(disks, Cache) == 0 <==> forall j :: 0 <= j < |disks| ==> disks[j].claimedAs != Cache
    decreases |disks|
  {
    if |disks| > 0 {
      var init := disks[..|disks| - 1];
      NoCacheDisk(init);
      assert forall j :: 0 <= j < |init| ==> init[j] == disks[j];
    }
  }
}
