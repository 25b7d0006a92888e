/** The DRS pass (runDRS): count the VMs of each eligible host, and while a
    host holds more VMs than the least loaded one did at the start, vMotion
    its VMs one at a time to the currently least loaded host.

    The count records of the source are modelled by index: record r belongs
    to eligible host r. `order` is the current arrangement of the records in
    the array, which the source re-sorts in place after every move. */
module Rebalancer {
  import opened Types
  import opened Relocation

  /** Hosts DRS may balance over. */
  predicate Eligible(h: Host, maintenanceHostId: Option<string>) {
    h.status == Connected && (maintenanceHostId.None? || h.id != maintenanceHostId.value) &&
    !h.isWitness && h.vmkConfigured &&
    exists k :: 0 <= k < |h.disks| && h.disks[k].claimedAs != Unclaimed
  }

  function EligibleHosts(hosts: seq<Host>, maintenanceHostId: Option<string>): seq<Host> {
    Filter(hosts, (h: Host) => Eligible(h, maintenanceHostId))
  }

  // ---------------------------------------------------------------- records

  /** The count of record k (records outside the table count nothing; lemma
      DrsKeepsIndices shows that no such record is ever looked up). */
  function At(counts: seq<nat>, k: nat): nat {
    if k < |counts| then counts[k] else 0
  }

  function Last(order: seq<nat>): nat {
    if |order| == 0 then 0 else order[|order| - 1]
  }

  predicate Indices(order: seq<nat>, m: nat) {
    forall k :: 0 <= k < |order| ==> order[k] < m
  }

  predicate SortedDesc(order: seq<nat>, counts: seq<nat>) {
    forall a, b :: 0 <= a < b < |order| ==> At(counts, order[a]) >= At(counts, order[b])
  }

  // ---------------------------------------------------------------- stable sort

  /** Inserts x after every record counting at least as much. */
  function InsertDesc(x: nat, sorted: seq<nat>, counts: seq<nat>): (r: seq<nat>)
    ensures |r| == |sorted| + 1
  {
    if |sorted| == 0 then [x]
    else if At(counts, sorted[0]) < At(counts, x) then [x] + sorted
    else [sorted[0]] + InsertDesc(x, sorted[1..], counts)
  }

  /** `array.sort((a, b) => b.count - a.count)`: a stable sort by descending
      count, as an insertion sort over the current arrangement. */
  function SortDesc(order: seq<nat>, counts: seq<nat>): (r: seq<nat>)
    ensures |r| == |order|
  {
    if |order| == 0 then []
    else InsertDesc(order[|order| - 1], SortDesc(order[..|order| - 1], counts), counts)
  }

  lemma InsertDescProperties(x: nat, sorted: seq<nat>, counts: seq<nat>)
    ensures multiset(InsertDesc(x, sorted, counts)) == multiset(sorted) + multiset{x}
    ensures SortedDesc(sorted, counts) ==> SortedDesc(InsertDesc(x, sorted, counts), counts)
  {
    InsertDescPerm(x, sorted, counts);
    if SortedDesc(sorted, counts) {
      InsertDescSorted(x, sorted, counts);
    }
  }

  lemma {:induction false} InsertDescPerm(x: nat, sorted: seq<nat>, counts: seq<nat>)
    ensures multiset(InsertDesc(x, sorted, counts)) == multiset(sorted) + multiset{x}
    decreases |sorted|
  {
    if |sorted| > 0 && At(counts, sorted[0]) >= At(counts, x) {
      InsertDescPerm(x, sorted[1..], counts);
      assert sorted == [sorted[0]] + sorted[1..];
    }
  }

  lemma {:induction false} InsertDescSorted(x: nat, sorted: seq<nat>, counts: seq<nat>)
    requires SortedDesc(sorted, counts)
    ensures SortedDesc(InsertDesc(x, sorted, counts), counts)
    decreases |sorted|
  {
    if |sorted| > 0 && At(counts, sorted[0]) >= At(counts, x) {
      var tail := sorted[1..];
      assert SortedDesc(tail, counts) by {
        forall a, b | 0 <= a < b < |tail| ensures At(counts, tail[a]) >= At(counts, tail[b]) {
          assert tail[a] == sorted[a + 1] && tail[b] == sorted[b + 1];
        }
      }
      InsertDescSorted(x, tail, counts);
      InsertDescPerm(x, tail, counts);
      var rest := InsertDesc(x, tail, counts);
      var r := InsertDesc(x, sorted, counts);
      assert r == [sorted[0]] + rest;
      forall a, b | 0 <= a < b < |r| ensures At(counts, r[a]) >= At(counts, r[b]) {
        assert r[b] == rest[b - 1];
        if a == 0 {
          assert rest[b - 1] in multiset(rest);
          if r[b] != x {
            assert r[b] in multiset(tail);
            var k :| 0 <= k < |tail| && tail[k] == r[b];
            assert sorted[k + 1] == r[b];
          }
        } else {
          assert r[a] == rest[a - 1];
        }
      }
    } else if |sorted| > 0 {
      var r := InsertDesc(x, sorted, counts);
      forall a, b | 0 <= a < b < |r| ensures At(counts, r[a]) >= At(counts, r[b]) {
        assert r[b] == sorted[b - 1];
        if a > 0 {
          assert r[a] == sorted[a - 1];
        } else if b > 1 {
          assert At(counts, sorted[0]) >= At(counts, sorted[b - 1]);
        }
      }
    }
  }

  /** The sort orders the records by descending count and loses or invents none. */
  lemma {:induction false} SortDescProperties(order: seq<nat>, counts: seq<nat>)
    ensures multiset(SortDesc(order, counts)) == multiset(order)
    ensures SortedDesc(SortDesc(order, counts), counts)
    decreases |order|
  {
    if |order| > 0 {
      var init := order[..|order| - 1];
      SortDescProperties(init, counts);
      InsertDescProperties(order[|order| - 1], SortDesc(init, counts), counts);
      assert order == init + [order[|order| - 1]];
    }
  }

  /** The records of one count, in the order they appear. */
  function WithCount(order: seq<nat>, counts: seq<nat>, c: nat): seq<nat> {
    Filter(order, (k: nat) => At(counts, k) == c)
  }

  lemma WithCountAppend(a: seq<nat>, b: seq<nat>, counts: seq<nat>, c: nat)
    ensures WithCount(a + b, counts, c) == WithCount(a, counts, c) + WithCount(b, counts, c)
  {
    FilterAppend(a, b, (k: nat) => At(counts, k) == c);
  }

  /** Inserting x keeps the records of each count in their order, x after
      those of its own count. */
  lemma {:induction false} InsertDescStable(x: nat, sorted: seq<nat>, counts: seq<nat>, c: nat)
    requires SortedDesc(sorted, counts)
    ensures WithCount(InsertDesc(x, sorted, counts), counts, c) == WithCount(sorted + [x], counts, c)
    decreases |sorted|
  {
    if |sorted| == 0 {
      assert sorted + [x] == [x];
    } else if At(counts, sorted[0]) < At(counts, x) {
      WithCountAppend([x], sorted, counts, c);
      WithCountAppend(sorted, [x], counts, c);
      if c == At(counts, x) {
        FilterEmpty(sorted, (k: nat) => At(counts, k) == c);
        forall i | 0 <= i < |sorted| ensures At(counts, sorted[i]) != c {
          if i > 0 {
            assert At(counts, sorted[0]) >= At(counts, sorted[i]);
          }
        }
      } else {
        WithCountSingleton(x, counts, c);
      }
    } else {
      var tail := sorted[1..];
      assert SortedDesc(tail, counts) by {
        forall a, b | 0 <= a < b < |tail| ensures At(counts, tail[a]) >= At(counts, tail[b]) {
          assert tail[a] == sorted[a + 1] && tail[b] == sorted[b + 1];
        }
      }
      InsertDescStable(x, tail, counts, c);
      assert InsertDesc(x, sorted, counts) == [sorted[0]] + InsertDesc(x, tail, counts);
      WithCountAppend([sorted[0]], InsertDesc(x, tail, counts), counts, c);
      assert sorted + [x] == [sorted[0]] + (tail + [x]);
      WithCountAppend([sorted[0]], tail + [x], counts, c);
    }
  }

  lemma WithCountSingleton(x: nat, counts: seq<nat>, c: nat)
    ensures WithCount([x], counts, c) == if At(counts, x) == c then [x] else []
  {
    FilterSingleton(x, (k: nat) => At(counts, k) == c);
  }

  /** The sort is stable: the records of each count keep their relative order. */
  lemma {:induction false} SortDescStable(order: seq<nat>, counts: seq<nat>, c: nat)
    ensures WithCount(SortDesc(order, counts), counts, c) == WithCount(order, counts, c)
    decreases |order|
  {
    if |order| > 0 {
      var init := order[..|order| - 1];
      var x := order[|order| - 1];
      SortDescStable(init, counts, c);
      SortDescProperties(init, counts);
      InsertDescStable(x, SortDesc(init, counts), counts, c);
      WithCountAppend(SortDesc(init, counts), [x], counts, c);
      assert order == init + [x];
      WithCountAppend(init, [x], counts, c);
    }
  }

  lemma SortDescKeepsIndices(order: seq<nat>, counts: seq<nat>, m: nat)
    requires Indices(order, m)
    ensures Indices(SortDesc(order, counts), m)
  {
    SortDescProperties(order, counts);
    var r := SortDesc(order, counts);
    forall k | 0 <= k < |r| ensures r[k] < m {
      assert r[k] in multiset(order);
    }
  }

  // ---------------------------------------------------------------- target

  /** The target of a move: among the records counting less than `below`, the
      first of the least count in the current arrangement (the head of
      filter(count < below).sort(ascending)). */
  function PickTarget(order: seq<nat>, counts: seq<nat>, below: nat): Option<nat> {
    if |order| == 0 then None
    else
      var rest := PickTarget(order[1..], counts, below);
      var x := order[0];
      if At(counts, x) < below && (rest.None? || At(counts, x) <= At(counts, rest.value)) then Some(x)
      else rest
  }

  /** There is a target exactly when some record counts less than `below`;
      it is then a record of the arrangement of least count, counting less
      than `below`, and no record before it counts as little. */
  lemma {:induction false} PickTargetSpec(order: seq<nat>, counts: seq<nat>, below: nat)
    ensures var r := PickTarget(order, counts, below);
            (r.None? <==> forall k :: 0 <= k < |order| ==> At(counts, order[k]) >= below) &&
            (r.Some? ==>
               At(counts, r.value) < below &&
               exists p :: 0 <= p < |order| && order[p] == r.value &&
                 (forall k :: 0 <= k < p ==> At(counts, order[k]) >= below || At(counts, order[k]) > At(counts, r.value)) &&
                 (forall k :: 0 <= k < |order| ==> At(counts, order[k]) >= below || At(counts, order[k]) >= At(counts, r.value)))
    decreases |order|
  {
    if |order| > 0 {
      PickTargetSpec(order[1..], counts, below);
    }
  }

  lemma {:induction false} PickTargetBelow(order: seq<nat>, counts: seq<nat>, below: nat)
    ensures var r := PickTarget(order, counts, below);
            r.Some? ==> At(counts, r.value) < below
    decreases |order|
  {
    if |order| > 0 {
      PickTargetBelow(order[1..], counts, below);
    }
  }

  lemma PickTargetInOrder(order: seq<nat>, counts: seq<nat>, below: nat, m: nat)
    requires Indices(order, m)
    ensures var r := PickTarget(order, counts, below);
            r.Some? ==> r.value < m && At(counts, r.value) < below
  {
    PickTargetSpec(order, counts, below);
  }

  // ---------------------------------------------------------------- the pass

  /** The working state: a count and a pool (vmsByHost) per record, the
      arrangement of the records, and the VMs moved so far. */
  datatype Pass = Pass(counts: seq<nat>, order: seq<nat>, pools: seq<seq<VM>>, moved: seq<VM>)

  predicate WellFormed(st: Pass, m: nat) {
    |st.counts| == m && |st.pools| == m && |st.order| == m
  }

  /** One move from record s: the last VM of its pool goes to record t. */
  function Move(st: Pass, s: nat, t: nat, ids: seq<string>): (r: Pass)
    requires WellFormed(st, |ids|) && s < |ids| && t < |ids|
    requires |st.pools[s]| > 0 && st.counts[t] < st.counts[s]
    ensures WellFormed(r, |ids|)
    ensures r.counts[s] == st.counts[s] - 1 && r.counts[t] == st.counts[t] + 1 &&
            forall x :: 0 <= x < |ids| && x != s && x != t ==> r.counts[x] == st.counts[x]
    ensures r.moved == st.moved + [st.pools[s][|st.pools[s]| - 1].(hostId := ids[t])]
    ensures |r.pools[s]| == |st.pools[s]| - 1 && forall x :: 0 <= x < |ids| && x != s ==> r.pools[x] == st.pools[x]
    ensures r.pools[s] == st.pools[s][..|st.pools[s]| - 1] && r.order == SortDesc(st.order, r.counts)
  {
    var pool := st.pools[s];
    var counts := st.counts[t := st.counts[t] + 1][s := st.counts[s] - 1];
    Pass(counts, SortDesc(st.order, counts), st.pools[s := pool[..|pool| - 1]],
         st.moved + [pool[|pool| - 1].(hostId := ids[t])])
  }

  /** The inner while loop for the source record s: stop when s no longer
      counts more than the initial minimum, when no record counts less than
      s, when the pool of s is empty, or right after a move that leaves s no
      busier than the least busy record. */
  function Inner(st: Pass, s: nat, minCount: nat, ids: seq<string>): (r: Pass)
    requires WellFormed(st, |ids|) && s < |ids|
    ensures WellFormed(r, |ids|)
    decreases At(st.counts, s)
  {
    if At(st.counts, s) <= minCount then st
    else
      PickTargetBelow(st.order, st.counts, At(st.counts, s));
      match PickTarget(st.order, st.counts, At(st.counts, s))
      case None => st
      case Some(t) =>
        if t >= |ids| || |st.pools[s]| == 0 then st
        else
          var next := Move(st, s, t, ids);
          if At(next.counts, s) <= At(next.counts, Last(next.order)) then next
          else Inner(next, s, minCount, ids)
  }

  /** The two ways one round of the inner loop ends: without a move, or with one. */
  lemma InnerStops(st: Pass, s: nat, minCount: nat, ids: seq<string>)
    requires WellFormed(st, |ids|) && s < |ids|
    requires var t := PickTarget(st.order, st.counts, At(st.counts, s));
             At(st.counts, s) <= minCount || t.None? || t.value >= |ids| || |st.pools[s]| == 0
    ensures Inner(st, s, minCount, ids) == st
  {
  }

  lemma InnerMoves(st: Pass, s: nat, minCount: nat, ids: seq<string>, t: nat)
    requires WellFormed(st, |ids|) && s < |ids| && t < |ids| && At(st.counts, s) > minCount
    requires PickTarget(st.order, st.counts, At(st.counts, s)) == Some(t) && |st.pools[s]| > 0
    ensures st.counts[t] < st.counts[s]
    ensures var next := Move(st, s, t, ids);
            Inner(st, s, minCount, ids) ==
              if At(next.counts, s) <= At(next.counts, Last(next.order)) then next else Inner(next, s, minCount, ids)
  {
    PickTargetBelow(st.order, st.counts, At(st.counts, s));
  }

  /** The outer for loop from position i: each position names the record
      found there in the arrangement at the time. */
  function Outer(st: Pass, i: nat, minCount: nat, ids: seq<string>): (r: Pass)
    requires WellFormed(st, |ids|)
    ensures WellFormed(r, |ids|)
    decreases |ids| - i
  {
    if i >= |ids| || st.order[i] >= |ids| then st
    else Outer(Inner(st, st.order[i], minCount, ids), i + 1, minCount, ids)
  }

  function Range(m: nat): (r: seq<nat>)
    ensures |r| == m
  {
    seq(m, k requires 0 <= k < m => k)
  }

  /** vmsByHost[hostId]: the VMs on the host, in list order. */
  function Pool(vms: seq<VM>, hostId: string): seq<VM> {
    Filter(vms, (vm: VM) => vm.hostId == hostId)
  }

  /** The VMs of each eligible host, their counts and the sorted records. */
  function Start(vms: seq<VM>, ids: seq<string>): (r: Pass)
    ensures WellFormed(r, |ids|)
  {
    var pools := seq(|ids|, k requires 0 <= k < |ids| => Pool(vms, ids[k]));
    var counts := seq(|ids|, k requires 0 <= k < |ids| => |pools[k]|);
    Pass(counts, SortDesc(Range(|ids|), counts), pools, [])
  }

  function MaxCount(st: Pass): nat {
    if |st.order| == 0 then 0 else At(st.counts, st.order[0])
  }

  function MinCount(st: Pass): nat {
    At(st.counts, Last(st.order))
  }

  /** Whether DRS acts: there are VMs, two eligible hosts or more, and the
      busiest counts more than one VM above the least busy. */
  predicate Unbalanced(vms: seq<VM>, ids: seq<string>) {
    |vms| > 0 && |ids| >= 2 && MaxCount(Start(vms, ids)) > MinCount(Start(vms, ids)) + 1
  }

  /** The VMs that DRS migrates, each with its new host. */
  function DrsMoves(vms: seq<VM>, ids: seq<string>): seq<VM> {
    if !Unbalanced(vms, ids) then []
    else Outer(Start(vms, ids), 0, MinCount(Start(vms, ids)), ids).moved
  }

  predicate MovedId(moved: seq<VM>, id: string) {
    exists k :: 0 <= k < |moved| && moved[k].id == id
  }

  /** The VM list after DRS: the VMs left in place, then the migrated ones. */
  function Apply(vms: seq<VM>, moved: seq<VM>): seq<VM> {
    if |moved| == 0 then vms else Filter(vms, (vm: VM) => !MovedId(moved, vm.id)) + moved
  }

  function Rebalance(hosts: seq<Host>, vms: seq<VM>, maintenanceHostId: Option<string>): seq<VM> {
    Apply(vms, DrsMoves(vms, HostIds(EligibleHosts(hosts, maintenanceHostId))))
  }

  // ---------------------------------------------------------------- properties

  /** The arrangement only ever names real records: every record an
      iteration looks up exists, so the out-of-range defaults never apply. */
  lemma DrsKeepsIndices(vms: seq<VM>, ids: seq<string>)
    ensures Indices(Start(vms, ids).order, |ids|)
    ensures Indices(Outer(Start(vms, ids), 0, MinCount(Start(vms, ids)), ids).order, |ids|)
  {
    var st := Start(vms, ids);
    assert Indices(Range(|ids|), |ids|);
    SortDescKeepsIndices(Range(|ids|), st.counts, |ids|);
    OuterKeepsIndices(st, 0, MinCount(st), ids);
  }

  lemma {:induction false} InnerKeepsIndices(st: Pass, s: nat, minCount: nat, ids: seq<string>)
    requires WellFormed(st, |ids|) && s < |ids| && Indices(st.order, |ids|)
    ensures Indices(Inner(st, s, minCount, ids).order, |ids|)
    decreases At(st.counts, s)
  {
    var t := PickTarget(st.order, st.counts, At(st.counts, s));
    if At(st.counts, s) > minCount && t.Some? && t.value < |ids| && |st.pools[s]| > 0 {
      InnerMoves(st, s, minCount, ids, t.value);
      var next := Move(st, s, t.value, ids);
      SortDescKeepsIndices(st.order, next.counts, |ids|);
      if At(next.counts, s) > At(next.counts, Last(next.order)) {
        InnerKeepsIndices(next, s, minCount, ids);
      }
    }
  }

  lemma {:induction false} OuterKeepsIndices(st: Pass, i: nat, minCount: nat, ids: seq<string>)
    requires WellFormed(st, |ids|) && Indices(st.order, |ids|)
    ensures Indices(Outer(st, i, minCount, ids).order, |ids|)
    decreases |ids| - i
  {
    if i < |ids| && st.order[i] < |ids| {
      InnerKeepsIndices(st, st.order[i], minCount, ids);
      OuterKeepsIndices(Inner(st, st.order[i], minCount, ids), i + 1, minCount, ids);
    }
  }

  /** A pass only appends to the list of moved VMs. */
  lemma {:induction false} InnerExtends(st: Pass, s: nat, minCount: nat, ids: seq<string>)
    requires WellFormed(st, |ids|) && s < |ids|
    ensures st.moved <= Inner(st, s, minCount, ids).moved
    decreases At(st.counts, s)
  {
    var t := PickTarget(st.order, st.counts, At(st.counts, s));
    if At(st.counts, s) > minCount && t.Some? && t.value < |ids| && |st.pools[s]| > 0 {
      InnerMoves(st, s, minCount, ids, t.value);
      var next := Move(st, s, t.value, ids);
      if At(next.counts, s) > At(next.counts, Last(next.order)) {
        InnerExtends(next, s, minCount, ids);
      }
    }
  }

  lemma {:induction false} OuterExtends(st: Pass, i: nat, minCount: nat, ids: seq<string>)
    requires WellFormed(st, |ids|)
    ensures st.moved <= Outer(st, i, minCount, ids).moved
    decreases |ids| - i
  {
    if i < |ids| && st.order[i] < |ids| {
      InnerExtends(st, st.order[i], minCount, ids);
      OuterExtends(Inner(st, st.order[i], minCount, ids), i + 1, minCount, ids);
    }
  }

  /** DRS migrates at least one VM exactly when it finds the cluster
      unbalanced: there are VMs, two eligible hosts or more, and a spread of
      more than one VM between the busiest and the least busy. */
  lemma DrsMovesIffUnbalanced(vms: seq<VM>, ids: seq<string>)
    ensures |DrsMoves(vms, ids)| > 0 <==> Unbalanced(vms, ids)
  {
    if Unbalanced(vms, ids) {
      UnbalancedMoves(vms, ids);
    }
  }

  /** An unbalanced cluster gets at least one move: the busiest host has a
      VM and a less busy target. */
  lemma UnbalancedMoves(vms: seq<VM>, ids: seq<string>)
    requires Unbalanced(vms, ids)
    ensures |DrsMoves(vms, ids)| > 0
  {
    var st := Start(vms, ids);
    var minCount := MinCount(st);
    DrsKeepsIndices(vms, ids);
    var s := st.order[0];
    assert Last(st.order) == st.order[|st.order| - 1];
    PickTargetSpec(st.order, st.counts, At(st.counts, s));
    var t := PickTarget(st.order, st.counts, At(st.counts, s));
    assert t.Some?;
    assert |st.pools[s]| == At(st.counts, s);
    InnerMoves(st, s, minCount, ids, t.value);
    var next := Move(st, s, t.value, ids);
    InnerExtends(next, s, minCount, ids);
    var inner := Inner(st, s, minCount, ids);
    assert |inner.moved| > 0;
    OuterExtends(inner, 1, minCount, ids);
  }

  /** Where DRS acts on nothing, the VM list is left exactly as it was. */
  lemma BalancedIsUntouched(hosts: seq<Host>, vms: seq<VM>, maintenanceHostId: Option<string>)
    requires !Unbalanced(vms, HostIds(EligibleHosts(hosts, maintenanceHostId)))
    ensures Rebalance(hosts, vms, maintenanceHostId) == vms
  {
  }

  /** A migrated VM: a VM of the list, on an eligible host, that now runs on
      a different eligible host and is otherwise unchanged. */
  predicate MovedFrom(vms: seq<VM>, ids: seq<string>, m: VM) {
    m.hostId in ids &&
    exists j :: 0 <= j < |vms| && vms[j].hostId in ids && vms[j].hostId != m.hostId &&
                vms[j].(hostId := m.hostId) == m
  }

  predicate Distinct(ids: seq<string>) {
    forall a, b :: 0 <= a < b < |ids| ==> ids[a] != ids[b]
  }

  /** The pools hold VMs of the list on their own record's host, and every
      VM moved so far is a migrated VM. */
  predicate Origins(st: Pass, vms: seq<VM>, ids: seq<string>) {
    WellFormed(st, |ids|) &&
    (forall r, k :: 0 <= r < |st.pools| && 0 <= k < |st.pools[r]| ==>
       st.pools[r][k] in vms && st.pools[r][k].hostId == ids[r]) &&
    (forall k :: 0 <= k < |st.moved| ==> MovedFrom(vms, ids, st.moved[k]))
  }

  lemma StartOrigins(vms: seq<VM>, ids: seq<string>)
    ensures Origins(Start(vms, ids), vms, ids)
  {
  }

  lemma MoveOrigins(st: Pass, s: nat, t: nat, ids: seq<string>, vms: seq<VM>)
    requires WellFormed(st, |ids|) && s < |ids| && t < |ids|
    requires |st.pools[s]| > 0 && st.counts[t] < st.counts[s]
    requires Distinct(ids) && Origins(st, vms, ids)
    ensures Origins(Move(st, s, t, ids), vms, ids)
  {
    var pool := st.pools[s];
    var v := pool[|pool| - 1];
    var m := v.(hostId := ids[t]);
    var next := Move(st, s, t, ids);
    assert v in vms && v.hostId == ids[s];
    var j :| 0 <= j < |vms| && vms[j] == v;
    assert vms[j].(hostId := m.hostId) == m;
    assert MovedFrom(vms, ids, m);
    assert next.moved == st.moved + [m];
    forall r, k | 0 <= r < |next.pools| && 0 <= k < |next.pools[r]|
      ensures next.pools[r][k] in vms && next.pools[r][k].hostId == ids[r]
    {
      if r == s {
        assert next.pools[r][k] == pool[k];
      }
    }
  }

  lemma {:induction false} InnerOrigins(st: Pass, s: nat, minCount: nat, ids: seq<string>, vms: seq<VM>)
    requires WellFormed(st, |ids|) && s < |ids| && Distinct(ids) && Origins(st, vms, ids)
    ensures Origins(Inner(st, s, minCount, ids), vms, ids)
    decreases At(st.counts, s)
  {
    var t := PickTarget(st.order, st.counts, At(st.counts, s));
    if At(st.counts, s) > minCount && t.Some? && t.value < |ids| && |st.pools[s]| > 0 {
      InnerMoves(st, s, minCount, ids, t.value);
      var next := Move(st, s, t.value, ids);
      MoveOrigins(st, s, t.value, ids, vms);
      if At(next.counts, s) > At(next.counts, Last(next.order)) {
        InnerOrigins(next, s, minCount, ids, vms);
      }
    }
  }

  lemma {:induction false} OuterOrigins(st: Pass, i: nat, minCount: nat, ids: seq<string>, vms: seq<VM>)
    requires WellFormed(st, |ids|) && Distinct(ids) && Origins(st, vms, ids)
    ensures Origins(Outer(st, i, minCount, ids), vms, ids)
    decreases |ids| - i
  {
    if i < |ids| && st.order[i] < |ids| {
      InnerOrigins(st, st.order[i], minCount, ids, vms);
      OuterOrigins(Inner(st, st.order[i], minCount, ids), i + 1, minCount, ids, vms);
    }
  }

  /** Every VM DRS migrates is a VM of the list that leaves an eligible host
      for another eligible host, with nothing but its host changed. */
  lemma DrsMovesAreMigrations(vms: seq<VM>, ids: seq<string>)
    requires Distinct(ids)
    ensures forall k :: 0 <= k < |DrsMoves(vms, ids)| ==> MovedFrom(vms, ids, DrsMoves(vms, ids)[k])
  {
    if Unbalanced(vms, ids) {
      StartOrigins(vms, ids);
      OuterOrigins(Start(vms, ids), 0, MinCount(Start(vms, ids)), ids, vms);
    }
  }

  function VmIds(vms: seq<VM>): set<string> {
    set k | 0 <= k < |vms| :: vms[k].id
  }

  /** Replacing VMs by migrated copies of themselves keeps the set of VM ids,
      and every VM of the new list is an old VM or a migrated one. */
  lemma ApplyKeepsVms(vms: seq<VM>, ids: seq<string>, moved: seq<VM>)
    requires forall k :: 0 <= k < |moved| ==> MovedFrom(vms, ids, moved[k])
    ensures VmIds(Apply(vms, moved)) == VmIds(vms)
    ensures forall k :: 0 <= k < |Apply(vms, moved)| ==>
              Apply(vms, moved)[k] in vms || MovedFrom(vms, ids, Apply(vms, moved)[k])
  {
    if |moved| > 0 {
      var kept := Filter(vms, (vm: VM) => !MovedId(moved, vm.id));
      ApplyAddsNoIds(vms, ids, moved, kept);
      ApplyLosesNoIds(vms, moved, kept);
    }
  }

  lemma ApplyAddsNoIds(vms: seq<VM>, ids: seq<string>, moved: seq<VM>, kept: seq<VM>)
    requires forall k :: 0 <= k < |moved| ==> MovedFrom(vms, ids, moved[k])
    requires forall k :: 0 <= k < |kept| ==> kept[k] in vms
    ensures VmIds(kept + moved) <= VmIds(vms)
    ensures forall k :: 0 <= k < |kept + moved| ==> (kept + moved)[k] in vms || MovedFrom(vms, ids, (kept + moved)[k])
  {
    var out := kept + moved;
    forall x | x in VmIds(out) ensures x in VmIds(vms) {
      var k :| 0 <= k < |out| && out[k].id == x;
      if k < |kept| {
        assert out[k] in vms;
        var p :| 0 <= p < |vms| && vms[p] == out[k];
      } else {
        var m := moved[k - |kept|];
        assert out[k] == m;
        assert MovedFrom(vms, ids, m);
        var p :| 0 <= p < |vms| && vms[p].hostId in ids && vms[p].hostId != m.hostId && vms[p].(hostId := m.hostId) == m;
        assert vms[p].id == x;
      }
    }
    forall k | 0 <= k < |out| ensures out[k] in vms || MovedFrom(vms, ids, out[k]) {
      if k >= |kept| {
        assert out[k] == moved[k - |kept|];
      }
    }
  }

  lemma ApplyLosesNoIds(vms: seq<VM>, moved: seq<VM>, kept: seq<VM>)
    requires kept == Filter(vms, (vm: VM) => !MovedId(moved, vm.id))
    ensures VmIds(vms) <= VmIds(kept + moved)
  {
    forall x | x in VmIds(vms) ensures x in VmIds(kept + moved) {
      var k :| 0 <= k < |vms| && vms[k].id == x;
      var vm := vms[k];
      if !MovedId(moved, vm.id) {
        assert vm in kept;
      }
      KeptOrMovedId(vm, kept, moved);
    }
  }

  /** A VM that is kept, or whose id is among the moved ones, keeps its id. */
  lemma KeptOrMovedId(vm: VM, kept: seq<VM>, moved: seq<VM>)
    requires vm in kept || MovedId(moved, vm.id)
    ensures vm.id in VmIds(kept + moved)
  {
    var out := kept + moved;
    if MovedId(moved, vm.id) {
      var q :| 0 <= q < |moved| && moved[q].id == vm.id;
      assert out[|kept| + q] == moved[q];
    } else {
      var p :| 0 <= p < |kept| && kept[p] == vm;
      assert out[p] == vm;
    }
  }

  /** runDRS changes placement only: the VM ids are the same before and
      after, and every VM afterwards is either untouched or a VM that left an
      eligible host for another eligible host with nothing else changed. */
  lemma RebalanceKeepsVms(hosts: seq<Host>, vms: seq<VM>, maintenanceHostId: Option<string>)
    requires UniqueHostIds(hosts)
    ensures var ids := HostIds(EligibleHosts(hosts, maintenanceHostId));
            var out := Rebalance(hosts, vms, maintenanceHostId);
            VmIds(out) == VmIds(vms) &&
            forall k :: 0 <= k < |out| ==> out[k] in vms || MovedFrom(vms, ids, out[k])
  {
    var eligible := EligibleHosts(hosts, maintenanceHostId);
    FilterKeepsUniqueIds(hosts, (h: Host) => Eligible(h, maintenanceHostId));
    var ids := HostIds(eligible);
    assert Distinct(ids);
    DrsMovesAreMigrations(vms, ids);
    ApplyKeepsVms(vms, ids, DrsMoves(vms, ids));
  }

  /** A pool holds exactly the VMs counted on its host. */
  lemma {:induction false} PoolSize(vms: seq<VM>, hostId: string)
    ensures |Pool(vms, hostId)| == CountOn(vms, hostId)
    decreases |vms|
  {
    if |vms| > 0 {
      PoolSize(vms[1..], hostId);
    }
  }

  // ---------------------------------------------------------------- one pass does not balance

  lemma SortSteps()
    ensures SortDesc([0, 1, 2], [4, 4, 0]) == [0, 1, 2]
    ensures SortDesc([0, 1, 2], [3, 4, 1]) == [1, 0, 2]
    ensures SortDesc([1, 0, 2], [2, 4, 2]) == [1, 0, 2]
  {
    SortThree(0, 1, 2, [4, 4, 0]);
    SortThree(0, 1, 2, [3, 4, 1]);
    SortThree(1, 0, 2, [2, 4, 2]);
    assert InsertDesc(2, [0, 1], [4, 4, 0]) == [0, 1, 2];
    assert InsertDesc(2, [1, 0], [3, 4, 1]) == [1, 0, 2];
    assert InsertDesc(2, [1, 0], [2, 4, 2]) == [1, 0, 2];
  }

  lemma SortThree(a: nat, b: nat, c: nat, counts: seq<nat>)
    ensures SortDesc([a, b, c], counts) == InsertDesc(c, InsertDesc(b, [a], counts), counts)
  {
    assert [a, b, c][..2] == [a, b];
    assert [a, b][..1] == [a];
    assert SortDesc([a], counts) == [a];
    assert SortDesc([a, b], counts) == InsertDesc(b, [a], counts);
  }

  lemma PickSteps()
    ensures PickTarget([0, 1, 2], [4, 4, 0], 4) == Some(2)
    ensures PickTarget([1, 0, 2], [3, 4, 1], 3) == Some(2)
    ensures PickTarget([1, 0, 2], [2, 4, 2], 2) == None
  {
    assert [0, 1, 2][1..] == [1, 2];
    assert [1, 2][1..] == [2];
    assert [1, 0, 2][1..] == [0, 2];
    assert [0, 2][1..] == [2];
    assert [2][1..] == [];
  }

  lemma StartCounts(vms: seq<VM>, ids: seq<string>)
    requires ids == ["a", "b", "c"]
    requires CountOn(vms, "a") == 4 && CountOn(vms, "b") == 4 && CountOn(vms, "c") == 0
    ensures Start(vms, ids).counts == [4, 4, 0]
  {
    PoolSize(vms, "a");
    PoolSize(vms, "b");
    PoolSize(vms, "c");
    var st := Start(vms, ids);
    assert st.counts[0] == 4 && st.counts[1] == 4 && st.counts[2] == 0;
  }

  /** A single pass need not level the counts: with 4, 4 and 0 VMs on three
      eligible hosts, the first host gives two VMs to the third and then the
      loop index reaches records that were moved behind it by the re-sort, so
      the second host is never drained and the pass ends at 2, 4 and 2. */
  lemma DrsCanLeaveImbalance(vms: seq<VM>, ids: seq<string>)
    requires ids == ["a", "b", "c"]
    requires CountOn(vms, "a") == 4 && CountOn(vms, "b") == 4 && CountOn(vms, "c") == 0
    ensures Unbalanced(vms, ids) && |DrsMoves(vms, ids)| == 2
    ensures Outer(Start(vms, ids), 0, MinCount(Start(vms, ids)), ids).counts == [2, 4, 2]
  {
    StartCounts(vms, ids);
    SortSteps();
    PickSteps();
    var st := Start(vms, ids);
    assert Range(3) == [0, 1, 2];
    assert st.order == [0, 1, 2];
    assert MinCount(st) == 0;
    assert |vms| > 0;
    assert |st.pools[0]| == 4;
    var m1 := Move(st, 0, 2, ids);
    assert m1.counts == [3, 4, 1];
    assert m1.order == [1, 0, 2];
    var m2 := Move(m1, 0, 2, ids);
    assert m2.counts == [2, 4, 2];
    assert m2.order == [1, 0, 2];
    assert Inner(m1, 0, 0, ids) == m2;
    assert Inner(st, 0, 0, ids) == m2;
    assert Inner(m2, 0, 0, ids) == m2;
    assert Inner(m2, 2, 0, ids) == m2;
    assert Outer(m2, 2, 0, ids) == m2;
    assert Outer(m2, 1, 0, ids) == m2;
  }

  function ExampleVm(id: string, hostId: string): VM {
    VM(id, id, hostId, PoweredOn, Compliant, RAID1_FTT1, 50, [], 100)
  }

  function ExampleVms(): seq<VM> {
    [ExampleVm("vm1", "a"), ExampleVm("vm2", "a"), ExampleVm("vm3", "a"), ExampleVm("vm4", "a"),
     ExampleVm("vm5", "b"), ExampleVm("vm6", "b"), ExampleVm("vm7", "b"), ExampleVm("vm8", "b")]
  }

  /** Such a VM list exists: vm1..vm4 on host a and vm5..vm8 on host b. */
  lemma ImbalanceExampleExists()
    ensures CountOn(ExampleVms(), "a") == 4 && CountOn(ExampleVms(), "b") == 4 && CountOn(ExampleVms(), "c") == 0
  {
  }

  // ---------------------------------------------------------------- the method

  /** The inner while loop of runDRS, with the pool pop, the push and the
      two count updates of each migration. */
  method Drain(st0: Pass, source: nat, minCount: nat, ids: seq<string>) returns (st: Pass)
    requires WellFormed(st0, |ids|) && source < |ids|
    ensures st == Inner(st0, source, minCount, ids)
  {
    st := st0;
    while st.counts[source] > minCount
      invariant WellFormed(st, |ids|)
      invariant Inner(st, source, minCount, ids) == Inner(st0, source, minCount, ids)
      decreases st.counts[source]
    {
      var target := PickTarget(st.order, st.counts, st.counts[source]);
      if target.None? || target.value >= |ids| || |st.pools[source]| == 0 {
        InnerStops(st, source, minCount, ids);
        break;
      }
      var t := target.value;
      InnerMoves(st, source, minCount, ids, t);
      st := Move(st, source, t, ids);
      if st.counts[source] <= At(st.counts, Last(st.order)) {
        break;
      }
    }
  }

  /** runDRS. */
  method RebalanceVms(hosts: seq<Host>, vms: seq<VM>, maintenanceHostId: Option<string>) returns (newVms: seq<VM>)
    ensures newVms == Rebalance(hosts, vms, maintenanceHostId)
  {
    var ids := HostIds(EligibleHosts(hosts, maintenanceHostId));
    if |vms| == 0 || |ids| < 2 {
      return vms;
    }
    var st := Start(vms, ids);
    var maxCount := At(st.counts, st.order[0]);
    var minCount := At(st.counts, st.order[|st.order| - 1]);
    if !(maxCount > minCount + 1) {
      return vms;
    }
    ghost var st0 := st;
    for i := 0 to |ids|
      invariant WellFormed(st, |ids|)
      invariant Outer(st, i, minCount, ids) == Outer(st0, 0, minCount, ids)
    {
      if st.order[i] >= |ids| {
        break;
      }
      st := Drain(st, st.order[i], minCount, ids);
    }
    assert st.moved == DrsMoves(vms, ids);
    newVms := Apply(vms, st.moved);
  }
}
