/** Moving the VMs off one host: the vMotion evacuation of maintenance mode
    and the vSphere HA restart after a failure. Both hand the VMs of the host
    out round robin over a fixed list of target hosts. */
module Relocation {
  import opened Types

  /** Evacuation keeps the VMs compliant; an HA restart powers them on
      elsewhere and leaves them non-compliant until resync. */
  datatype Mode = Evacuation | HaRestart

  /** A VM moved to a target host. */
  function MovedVm(vm: VM, targetId: string, mode: Mode): VM {
    match mode
    case Evacuation => vm.(hostId := targetId, compliance := Compliant)
    case HaRestart => vm.(hostId := targetId, power := PoweredOn, compliance := NonCompliant)
  }

  /** A VM left where it is; after a failure it loses compliance when one of
      its objects sat on the failed host. */
  function StayingVm(vm: VM, from: string, markObjects: bool): VM {
    if markObjects && HasComponentOn(vm, from) then vm.(compliance := NonCompliant) else vm
  }

  /** The map over the VMs with the round-robin counter `next`: the VMs on
      `from` go to targets[next % |targets|], targets[(next + 1) % |targets|], ... */
  function Relocate(vms: seq<VM>, from: string, targets: seq<string>, next: nat, mode: Mode, markObjects: bool): (r: seq<VM>)
    requires |targets| > 0
    ensures |r| == |vms|
  {
    if |vms| == 0 then []
    else if vms[0].hostId == from then
      [MovedVm(vms[0], targets[next % |targets|], mode)] + Relocate(vms[1..], from, targets, next + 1, mode, markObjects)
    else
      [StayingVm(vms[0], from, markObjects)] + Relocate(vms[1..], from, targets, next, mode, markObjects)
  }

  /** How many VMs run on the host. */
  function CountOn(vms: seq<VM>, hostId: string): nat {
    if |vms| == 0 then 0 else (if vms[0].hostId == hostId then 1 else 0) + CountOn(vms[1..], hostId)
  }

  lemma {:induction false} CountOnAppend(a: seq<VM>, b: seq<VM>, hostId: string)
    ensures CountOn(a + b, hostId) == CountOn(a, hostId) + CountOn(b, hostId)
    decreases |a|
  {
    if |a| == 0 {
      assert a + b == b;
    } else {
      assert (a + b)[1..] == a[1..] + b;
      CountOnAppend(a[1..], b, hostId);
    }
  }

  /** What the map makes of one VM, and the counter after it. */
  function Placed(vm: VM, from: string, targets: seq<string>, next: nat, mode: Mode, markObjects: bool): VM
    requires |targets| > 0
  {
    if vm.hostId == from then MovedVm(vm, targets[next % |targets|], mode) else StayingVm(vm, from, markObjects)
  }

  function After(vm: VM, from: string, next: nat): nat {
    if vm.hostId == from then next + 1 else next
  }

  /** The loop invariant of RelocateVms carried over one VM. */
  lemma RelocateAdvance(vms: seq<VM>, from: string, targets: seq<string>, next: nat, mode: Mode, markObjects: bool,
                        out: seq<VM>, i: nat, whole: seq<VM>)
    requires |targets| > 0 && i < |vms|
    requires out + Relocate(vms[i..], from, targets, next, mode, markObjects) == whole
    ensures (out + [Placed(vms[i], from, targets, next, mode, markObjects)]) +
              Relocate(vms[i + 1..], from, targets, After(vms[i], from, next), mode, markObjects) == whole
  {
    assert vms[i..][0] == vms[i] && vms[i..][1..] == vms[i + 1..];
    var tail := Relocate(vms[i + 1..], from, targets, After(vms[i], from, next), mode, markObjects);
    assert Relocate(vms[i..], from, targets, next, mode, markObjects) ==
             [Placed(vms[i], from, targets, next, mode, markObjects)] + tail;
    assert (out + [Placed(vms[i], from, targets, next, mode, markObjects)]) + tail ==
             out + ([Placed(vms[i], from, targets, next, mode, markObjects)] + tail);
  }

  /** The setVms(prev => prev.map(...)) with its nextHostIndex counter. */
  method RelocateVms(vms: seq<VM>, from: string, targets: seq<string>, mode: Mode, markObjects: bool)
      returns (out: seq<VM>)
    requires |targets| > 0
    ensures out == Relocate(vms, from, targets, 0, mode, markObjects)
  {
    out := [];
    var nextHostIndex := 0;
    var i := 0;
    ghost var whole := Relocate(vms, from, targets, 0, mode, markObjects);
    assert vms[0..] == vms;
    while i < |vms|
      invariant 0 <= i <= |vms|
      invariant out + Relocate(vms[i..], from, targets, nextHostIndex, mode, markObjects) == whole
    {
      RelocateAdvance(vms, from, targets, nextHostIndex, mode, markObjects, out, i, whole);
      var moved: VM;
      moved, nextHostIndex := Place(vms[i], from, targets, nextHostIndex, mode, markObjects);
      out := out + [moved];
      i := i + 1;
    }
  }

  /** The body of the map for one VM, with the counter after it. */
  method Place(vm: VM, from: string, targets: seq<string>, nextHostIndex: nat, mode: Mode, markObjects: bool)
      returns (moved: VM, after: nat)
    requires |targets| > 0
    ensures moved == Placed(vm, from, targets, nextHostIndex, mode, markObjects)
    ensures after == After(vm, from, nextHostIndex)
  {
    after := nextHostIndex;
    if vm.hostId == from {
      var newHostId := targets[nextHostIndex % |targets|];
      after := nextHostIndex + 1;
      moved := MovedVm(vm, newHostId, mode);
    } else {
      moved := StayingVm(vm, from, markObjects);
    }
  }

  /** Round robin, position by position: the j-th VM, if it ran on the host,
      goes to the target after the ones given to the VMs before it; every
      other VM keeps its host and power state; no VM changes identity. */
  lemma {:induction false} RelocateAt(vms: seq<VM>, from: string, targets: seq<string>, next: nat, mode: Mode,
                                      markObjects: bool, j: nat)
    requires |targets| > 0 && j < |vms|
    ensures var r := Relocate(vms, from, targets, next, mode, markObjects);
            SameVmBut(vms[j], r[j]) &&
            (vms[j].hostId == from ==>
               r[j] == MovedVm(vms[j], targets[(next + CountOn(vms[..j], from)) % |targets|], mode)) &&
            (vms[j].hostId != from ==> r[j] == StayingVm(vms[j], from, markObjects))
    decreases j
  {
    if j > 0 {
      var step := if vms[0].hostId == from then 1 else 0;
      RelocateAt(vms[1..], from, targets, next + step, mode, markObjects, j - 1);
      assert vms[..j][1..] == vms[1..][..j - 1];
      assert CountOn(vms[..j], from) == step + CountOn(vms[1..][..j - 1], from);
    }
  }

  /** After the relocation no VM runs on the emptied host, provided it is not
      itself a target, and every VM that ran there now runs on a target. */
  lemma RelocateEmptiesHost(vms: seq<VM>, from: string, targets: seq<string>, mode: Mode, markObjects: bool)
    requires |targets| > 0 && from !in targets
    ensures var r := Relocate(vms, from, targets, 0, mode, markObjects);
            (forall j :: 0 <= j < |r| ==> r[j].hostId != from) &&
            (forall j :: 0 <= j < |r| && vms[j].hostId == from ==> r[j].hostId in targets) &&
            (forall j :: 0 <= j < |r| && vms[j].hostId != from ==> r[j].hostId == vms[j].hostId)
  {
    var r := Relocate(vms, from, targets, 0, mode, markObjects);
    forall j | 0 <= j < |r|
      ensures r[j].hostId != from
      ensures vms[j].hostId == from ==> r[j].hostId in targets
      ensures vms[j].hostId != from ==> r[j].hostId == vms[j].hostId
    {
      RelocateAt(vms, from, targets, 0, mode, markObjects, j);
    }
  }

  lemma ModSmall(x: nat, n: nat)
    requires x < n
    ensures x % n == x
  {
  }

  /** With no more VMs on the host than targets, and distinct targets, no
      target receives two of them. */
  lemma RelocateSpreads(vms: seq<VM>, from: string, targets: seq<string>, mode: Mode, markObjects: bool, a: nat, b: nat)
    requires |targets| > 0 && a < b < |vms|
    requires forall p, q :: 0 <= p < q < |targets| ==> targets[p] != targets[q]
    requires vms[a].hostId == from && vms[b].hostId == from
    requires CountOn(vms, from) <= |targets|
    ensures var r := Relocate(vms, from, targets, 0, mode, markObjects);
            r[a].hostId != r[b].hostId
  {
    RelocateAt(vms, from, targets, 0, mode, markObjects, a);
    RelocateAt(vms, from, targets, 0, mode, markObjects, b);
    CountPrefixGrows(vms, from, a, b);
    CountPrefixBound(vms, from, b);
    ModSmall(CountOn(vms[..a], from), |targets|);
    ModSmall(CountOn(vms[..b], from), |targets|);
  }

  lemma {:induction false} CountPrefixGrows(vms: seq<VM>, hostId: string, a: nat, b: nat)
    requires a < b <= |vms| && vms[a].hostId == hostId
    ensures CountOn(vms[..a], hostId) < CountOn(vms[..b], hostId)
    decreases a
  {
    if a == 0 {
      assert vms[..b][0] == vms[0];
    } else {
      assert vms[..a][1..] == vms[1..][..a - 1];
      assert vms[..b][1..] == vms[1..][..b - 1];
      CountPrefixGrows(vms[1..], hostId, a - 1, b - 1);
    }
  }

  lemma {:induction false} CountPrefixBound(vms: seq<VM>, hostId: string, b: nat)
    requires b < |vms| && vms[b].hostId == hostId
    ensures CountOn(vms[..b], hostId) < CountOn(vms, hostId)
    decreases b
  {
    if b > 0 {
      assert vms[..b][1..] == vms[1..][..b - 1];
      CountPrefixBound(vms[1..], hostId, b - 1);
    }
  }

  /** EnsureAccessibility and failures: a VM with an object on the host
      becomes non-compliant, every other VM is left as it is; nothing but
      the compliance changes. */
  function MarkObjectsOn(vms: seq<VM>, hostId: string): (r: seq<VM>)
    ensures |r| == |vms|
    ensures forall j :: 0 <= j < |vms| ==>
              r[j].(compliance := vms[j].compliance) == vms[j] &&
              (HasComponentOn(vms[j], hostId) ==> r[j].compliance == NonCompliant) &&
              (!HasComponentOn(vms[j], hostId) ==> r[j] == vms[j])
  {
    seq(|vms|, j requires 0 <= j < |vms| => StayingVm(vms[j], hostId, true))
  }

  /** Marking the objects of a host twice marks nothing more. */
  lemma MarkObjectsOnTwice(vms: seq<VM>, hostId: string)
    ensures MarkObjectsOn(MarkObjectsOn(vms, hostId), hostId) == MarkObjectsOn(vms, hostId)
  {
  }

  /** A failed host with no survivor: its VMs stay on it powered off and
      non-compliant; every other VM keeps its host and power state and loses
      compliance only when one of its objects sat on the host. */
  function PowerOffOn(vms: seq<VM>, hostId: string): (r: seq<VM>)
    ensures |r| == |vms|
    ensures forall j :: 0 <= j < |vms| ==>
              SameVmBut(vms[j], r[j]) && r[j].hostId == vms[j].hostId &&
              (vms[j].hostId == hostId ==> r[j].power == PoweredOff && r[j].compliance == NonCompliant) &&
              (vms[j].hostId != hostId ==>
                 r[j] == if HasComponentOn(vms[j], hostId) then vms[j].(compliance := NonCompliant) else vms[j])
  {
    seq(|vms|, j requires 0 <= j < |vms| =>
      if vms[j].hostId == hostId then vms[j].(power := PoweredOff, compliance := NonCompliant)
      else StayingVm(vms[j], hostId, true))
  }

  /** resync completion: every VM compliant again, and nothing else changes. */
  function AllCompliant(vms: seq<VM>): (r: seq<VM>)
    ensures |r| == |vms|
    ensures forall j :: 0 <= j < |vms| ==>
              r[j].compliance == Compliant && r[j].(compliance := vms[j].compliance) == vms[j]
  {
    seq(|vms|, j requires 0 <= j < |vms| => vms[j].(compliance := Compliant))
  }

  /** A resync erases whatever marking came before it. */
  lemma ResyncClearsMarks(vms: seq<VM>, hostId: string)
    ensures AllCompliant(MarkObjectsOn(vms, hostId)) == AllCompliant(vms)
    ensures AllCompliant(AllCompliant(vms)) == AllCompliant(vms)
  {
  }
}
