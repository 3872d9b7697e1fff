/**
 Sampling by trace ID: the boundary computed from a rate, and the share of IDs below it.
 */
module ProbabilisticSampling {
  import opened HexParsing
  import opened SpanContexts

  const MAX_RANDOM: u64 := 0xFFFF_FFFF_FFFF_FFFF

  function Clamp(rate: real): (clamped: real)
    ensures 0.0 <= clamped <= 1.0
    ensures 0.0 <= rate <= 1.0 ==> clamped == rate
  {
    var low := if 1.0 < rate then 1.0 else rate;
    if 0.0 < low then low else 0.0
  }

  /** computeSamplingBoundary on a clamped rate. */
  function Boundary(rate: real): u64
    requires 0.0 <= rate <= 1.0
  {
    var boundary := rate * MAX_RANDOM as real;
    assert 0.0 <= boundary <= MAX_RANDOM as real;
    if boundary == MAX_RANDOM as real then MAX_RANDOM else boundary.Floor
  }

  datatype Probabilistic = Probabilistic(samplingRate: real, boundary: u64) {
    predicate IsSampled(id: TraceID) {
      boundary >= id.low
    }
  }

  function NewProbabilistic(rate: real): Probabilistic {
    Probabilistic(Clamp(rate), Boundary(Clamp(rate)))
  }

  // ---- The share of IDs sampled ----

  /** The low halves of the trace IDs sampled; the high half plays no part. */
  function SampledIDs(rate: real, high: u64): set<u64> {
    set low: u64 | 0 <= low <= MAX_RANDOM && NewProbabilistic(rate).IsSampled(TraceID(high, low))
  }

  function UpTo(b: nat): (s: set<nat>)
    ensures |s| == b + 1 && forall x: nat :: x in s <==> x <= b
  {
    if b == 0 then {0} else UpTo(b - 1) + {b}
  }

  lemma SampledCount(rate: real, high: u64)
    ensures |SampledIDs(rate, high)| == NewProbabilistic(rate).boundary + 1
  {
    var boundary := NewProbabilistic(rate).boundary;
    assert forall low: u64 | 0 <= low <= MAX_RANDOM ::
        low in SampledIDs(rate, high) <==> NewProbabilistic(rate).IsSampled(TraceID(high, low));
    assert SampledIDs(rate, high) == UpTo(boundary);
  }

  /** The boundary is the rate's share of the largest ID, rounded down. */
  lemma BoundaryIsFloor(rate: real)
    requires 0.0 <= rate <= 1.0
    ensures Boundary(rate) as real <= rate * MAX_RANDOM as real < Boundary(rate) as real + 1.0
  {
  }

  /** Of all 2^64 low halves, the sampler takes a share that differs from the clamped rate by at
      most 2^-64. */
  lemma SampledShare(rate: real, high: u64)
    ensures var ids := U64_RANGE as real;
            var sampled := |SampledIDs(rate, high)| as real;
            Clamp(rate) * ids - 1.0 <= sampled <= Clamp(rate) * ids + 1.0
  {
    SampledCount(rate, high);
    BoundaryIsFloor(Clamp(rate));
  }

  /** A larger rate samples every ID that a smaller one samples. */
  lemma LargerRateSamplesMore(low: real, high: real, id: TraceID)
    requires low <= high && NewProbabilistic(low).IsSampled(id)
    ensures NewProbabilistic(high).IsSampled(id)
  {
    assert Clamp(low) * MAX_RANDOM as real <= Clamp(high) * MAX_RANDOM as real;
  }

  /** Every ID is sampled exactly at rate 1 and above. */
  lemma AllSampledAtOne(rate: real)
    ensures (forall id: TraceID :: NewProbabilistic(rate).IsSampled(id)) <==> rate >= 1.0
  {
    if rate < 1.0 {
      BoundaryIsFloor(Clamp(rate));
      assert !NewProbabilistic(rate).IsSampled(TraceID(0, MAX_RANDOM));
    }
  }

  /** The IDs a tracer draws are never zero: none of them is sampled exactly below the rate of
      one ID in all. */
  lemma NoneSampledNearZero(rate: real)
    ensures (forall id: TraceID | id.low != 0 :: !NewProbabilistic(rate).IsSampled(id))
       <==> rate * MAX_RANDOM as real < 1.0
  {
    BoundaryIsFloor(Clamp(rate));
    assert NewProbabilistic(rate).IsSampled(TraceID(0, 1)) <==> NewProbabilistic(rate).boundary >= 1;
  }
}
