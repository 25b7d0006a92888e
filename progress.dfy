/** Progress meters: resync (step 10), full data evacuation (step 20) and
    host upgrade (step 10) all run a counter from 0 to 100. */
module Progress {

  /** The values `for (let i = start; i <= limit; i += stride)` visits, in order. */
  function Ramp(start: nat, stride: nat, limit: nat): (r: seq<nat>)
    requires stride > 0
    decreases if start <= limit then limit + 1 - start else 0
  {
    if start > limit then [] else [start] + Ramp(start + stride, stride, limit)
  }

  /** Closed form of a ramp: the i-th value is start + i * stride, every value
      stays within the limit, and the ramp stops exactly when the next value
      would pass the limit. */
  lemma {:induction false} RampClosedForm(start: nat, stride: nat, limit: nat)
    requires stride > 0
    ensures Ramp(start, stride, limit) == [] <==> start > limit
    ensures forall i :: 0 <= i < |Ramp(start, stride, limit)| ==>
              Ramp(start, stride, limit)[i] == start + i * stride &&
              Ramp(start, stride, limit)[i] <= limit
    ensures Ramp(start, stride, limit) != [] ==>
              Ramp(start, stride, limit)[|Ramp(start, stride, limit)| - 1] + stride > limit
    decreases if start <= limit then limit + 1 - start else 0
  {
    if start <= limit {
      var r := Ramp(start, stride, limit);
      var rest := Ramp(start + stride, stride, limit);
      RampClosedForm(start + stride, stride, limit);
      assert r == [start] + rest;
      forall i | 0 <= i < |r|
        ensures r[i] == start + i * stride && r[i] <= limit
      {
        if i > 0 {
          assert r[i] == rest[i - 1];
          assert start + stride + (i - 1) * stride == start + i * stride;
        }
      }
    }
  }

  /** A ramp that has not passed its limit starts with its first value. */
  lemma RampUnfold(start: nat, stride: nat, limit: nat)
    requires stride > 0 && start <= limit
    ensures Ramp(start, stride, limit) == [start] + Ramp(start + stride, stride, limit)
  {
  }

  /** Past the limit nothing is left to show: the values shown are the ramp. */
  lemma RampDone(shown: seq<nat>, i: nat, stride: nat, limit: nat)
    requires stride > 0 && i > limit && shown + Ramp(i, stride, limit) == Ramp(0, stride, limit)
    ensures shown == Ramp(0, stride, limit)
  {
    assert shown + [] == shown;
  }

  /** Both strides in use end their ramp to 100 on 100. */
  lemma RampEndsAtLimit(stride: nat)
    requires stride == 10 || stride == 20
    ensures var r := Ramp(0, stride, 100);
            |r| > 0 && r[|r| - 1] == 100
  {
    if stride == 10 {
      ResyncSteps();
    } else {
      EvacuationSteps();
    }
  }

  /** A meter loop that ran past 100 has shown the whole ramp, and its last
      value shown is 100. */
  lemma RampFinished(shown: seq<nat>, i: nat, stride: nat, last: nat)
    requires (stride == 10 || stride == 20) && i > 100
    requires shown + Ramp(i, stride, 100) == Ramp(0, stride, 100)
    requires |shown| > 0 ==> shown[|shown| - 1] == last
    ensures shown == Ramp(0, stride, 100) && last == 100
  {
    RampDone(shown, i, stride, 100);
    RampEndsAtLimit(stride);
  }

  /** One more value shown: the values so far followed by the rest of the ramp
      still make up the whole ramp. */
  lemma RampAdvance(shown: seq<nat>, i: nat, stride: nat, limit: nat)
    requires stride > 0 && i <= limit && shown + Ramp(i, stride, limit) == Ramp(0, stride, limit)
    ensures (shown + [i]) + Ramp(i + stride, stride, limit) == Ramp(0, stride, limit)
  {
    RampUnfold(i, stride, limit);
    assert (shown + [i]) + Ramp(i + stride, stride, limit) == shown + ([i] + Ramp(i + stride, stride, limit));
  }

  /** Each step of a ramp rises by exactly the stride. */
  lemma RampRisesByStride(start: nat, stride: nat, limit: nat)
    requires stride > 0
    ensures forall i :: 0 < i < |Ramp(start, stride, limit)| ==>
              Ramp(start, stride, limit)[i] == Ramp(start, stride, limit)[i - 1] + stride
  {
    RampClosedForm(start, stride, limit);
    var r := Ramp(start, stride, limit);
    forall i | 0 < i < |r| ensures r[i] == r[i - 1] + stride {
      assert start + i * stride == start + (i - 1) * stride + stride;
    }
  }

  /** The resync meter visits 0, 10, ..., 100. */
  lemma ResyncSteps()
    ensures Ramp(0, 10, 100) == [0, 10, 20, 30, 40, 50, 60, 70, 80, 90, 100]
  {
    RampClosedForm(0, 10, 100);
  }

  /** The evacuation meter visits 0, 20, ..., 100. */
  lemma EvacuationSteps()
    ensures Ramp(0, 20, 100) == [0, 20, 40, 60, 80, 100]
  {
    RampClosedForm(0, 20, 100);
  }
}
