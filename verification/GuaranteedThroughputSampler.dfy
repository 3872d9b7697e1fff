/**
 A probabilistic sampler backed by a rate limiter, which samples at least a given number of
 traces a second.
 */
module GuaranteedThroughput {
  import opened SpanContexts
  import opened RateLimiting
  import opened ProbabilisticSampling

  datatype Guaranteed = Guaranteed(
    probabilistic: Probabilistic,
    samplingRate: real,
    limiter: Limiter,
    lowerBound: real,
    tagRate: real)
  {
    /** The fields that are kept in step. */
    ghost predicate Consistent() {
      && probabilistic == NewProbabilistic(samplingRate) && samplingRate == tagRate == Clamp(samplingRate)
      && limiter.creditsPerSecond == lowerBound && limiter.maxBalance == Max(lowerBound, 1.0)
    }

    function Told(): Setting {
      Setting(lowerBound, samplingRate)
    }
  }

  /** What a sampler is told to do. */
  datatype Setting = Setting(lowerBound: real, samplingRate: real)

  /** A decision, with the sampler its tags name and their rate. */
  datatype Status = ByRate(sampled: bool, rate: real) | ByLowerBound(sampled: bool, rate: real)

  function NewGuaranteed(lowerBound: real, rate: real, now: real): (g: Guaranteed)
    ensures g.Consistent() && g.Told() == Setting(lowerBound, Clamp(rate))
  {
    var p := NewProbabilistic(rate);
    Guaranteed(p, p.samplingRate, NewLimiter(lowerBound, now), lowerBound, p.samplingRate)
  }

  function Decision(g: Guaranteed, id: TraceID, now: real): Status {
    if g.probabilistic.IsSampled(id) then ByRate(true, g.probabilistic.samplingRate)
    else ByLowerBound(Granted(g.limiter, now, 1.0), g.tagRate)
  }

  /** The limiter is asked whatever the decision. */
  function Decided(g: Guaranteed, now: real): (after: Guaranteed)
    ensures g.Consistent() ==> after.Consistent()
    ensures after.Told() == g.Told()
  {
    g.(limiter := Checked(g.limiter, now, 1.0))
  }

  /** Each half is replaced only when its setting changes. */
  function Updated(g: Guaranteed, lowerBound: real, rate: real, now: real): Guaranteed {
    var p := NewProbabilistic(rate);
    var half :=
      if g.samplingRate == rate then g
      else g.(probabilistic := p, samplingRate := p.samplingRate, tagRate := p.samplingRate);
    if half.lowerBound == lowerBound then half
    else half.(limiter := NewLimiter(lowerBound, now), lowerBound := lowerBound)
  }

  /** An update has the settings of a new sampler; the credit left survives exactly when the lower
      bound does not change. */
  lemma {:induction false} UpdateRenews(g: Guaranteed, lowerBound: real, rate: real, now: real)
    requires g.Consistent()
    ensures var after := Updated(g, lowerBound, rate, now);
            && after.Consistent()
            && after.(limiter := g.limiter) == NewGuaranteed(lowerBound, rate, now).(limiter := g.limiter)
            && after.limiter == if lowerBound == g.lowerBound then g.limiter else NewLimiter(lowerBound, now)
  {
  }

  class GuaranteedSampler {
    var probabilistic: Probabilistic
    var samplingRate: real
    var limiter: RateLimiter
    var lowerBound: real
    var tagRate: real

    function Now(): Guaranteed
      reads this, limiter
    {
      Guaranteed(probabilistic, samplingRate, limiter.Now(), lowerBound, tagRate)
    }

    constructor (lowerBound: real, rate: real, now: real)
      ensures Now() == NewGuaranteed(lowerBound, rate, now) && fresh(limiter)
    {
      probabilistic := NewProbabilistic(rate);
      samplingRate := Clamp(rate);
      limiter := new RateLimiter(lowerBound, Max(lowerBound, 1.0), now);
      this.lowerBound := lowerBound;
      tagRate := Clamp(rate);
    }

    method IsSampled(id: TraceID, now: real) returns (status: Status)
      modifies limiter
      ensures status == Decision(old(Now()), id, now)
      ensures Now() == Decided(old(Now()), now) && limiter == old(limiter)
    {
      if probabilistic.IsSampled(id) {
        var _ := limiter.CheckCredit(now, 1.0);
        return ByRate(true, probabilistic.samplingRate);
      }
      var sampled := limiter.CheckCredit(now, 1.0);
      return ByLowerBound(sampled, tagRate);
    }

    method Update(lowerBound: real, rate: real, now: real)
      modifies this
      ensures Now() == Updated(old(Now()), lowerBound, rate, now)
      ensures limiter == old(limiter) || fresh(limiter)
    {
      if samplingRate != rate {
        probabilistic := NewProbabilistic(rate);
        samplingRate := probabilistic.samplingRate;
        tagRate := samplingRate;
      }
      if this.lowerBound != lowerBound {
        limiter := new RateLimiter(lowerBound, Max(lowerBound, 1.0), now);
        this.lowerBound := lowerBound;
      }
    }
  }

  // ---- Runs of decisions ----

  datatype Request = Request(id: TraceID, time: real)

  function Times(requests: seq<Request>): (times: seq<real>)
    ensures |times| == |requests|
  {
    seq(|requests|, i requires 0 <= i < |requests| => requests[i].time)
  }

  function AfterAll(g: Guaranteed, requests: seq<Request>): Guaranteed {
    if requests == [] then g
    else Decided(AfterAll(g, requests[..|requests| - 1]), requests[|requests| - 1].time)
  }

  function SampledAmong(g: Guaranteed, requests: seq<Request>): nat {
    if requests == [] then 0
    else
      var n := |requests| - 1;
      SampledAmong(g, requests[..n])
      + if Decision(AfterAll(g, requests[..n]), requests[n].id, requests[n].time).sampled then 1 else 0
  }

  lemma {:induction false} EveryDecisionAsks(g: Guaranteed, requests: seq<Request>)
    ensures AfterAll(g, requests) == g.(limiter := After(g.limiter, Times(requests)))
    ensures SampledAmong(g, requests) >= Grants(g.limiter, Times(requests))
  {
    if requests != [] {
      var front := requests[..|requests| - 1];
      EveryDecisionAsks(g, front);
      assert Times(requests)[..|front|] == Times(front);
    }
  }

  /** The guarantee: in any run of decisions that lasts as long as it takes to earn one credit at
      the lower bound, some trace is sampled. */
  lemma {:induction false} ThroughputIsGuaranteed(g: Guaranteed, requests: seq<Request>)
    requires Sane(g.limiter) && requests != [] && Forward(g.limiter, Times(requests))
    requires Earned(g.limiter, requests[|requests| - 1].time) >= 1.0
    ensures SampledAmong(g, requests) > 0
  {
    EveryDecisionAsks(g, requests);
    NoStarvation(g.limiter, Times(requests));
  }

  // ---- What is sampled, from above ----

  /** The rate alone does not sample the trace. */
  predicate Above(g: Guaranteed, id: TraceID) {
    id.low > NewProbabilistic(g.samplingRate).boundary
  }

  /** Traces up to the boundary are sampled by rate; those above it exactly when the limiter grants a
      credit, and then by the lower bound. */
  lemma DecisionExactly(g: Guaranteed, id: TraceID, now: real)
    requires g.Consistent()
    ensures Decision(g, id, now).sampled <==> !Above(g, id) || Granted(g.limiter, now, 1.0)
    ensures Decision(g, id, now).ByRate? <==> !Above(g, id)
    ensures Decision(g, id, now).rate == g.samplingRate
  {
  }

  /** Traces above the boundary that were sampled. */
  function SampledAbove(g: Guaranteed, requests: seq<Request>): nat {
    if requests == [] then 0
    else
      var n := |requests| - 1;
      var sampled := Decision(AfterAll(g, requests[..n]), requests[n].id, requests[n].time).sampled;
      SampledAbove(g, requests[..n]) + if Above(g, requests[n].id) && sampled then 1 else 0
  }

  /** Credits granted for traces above the boundary. */
  function GrantsAbove(g: Guaranteed, requests: seq<Request>): nat {
    if requests == [] then 0
    else
      var n := |requests| - 1;
      var granted := Granted(After(g.limiter, Times(requests[..n])), requests[n].time, 1.0);
      GrantsAbove(g, requests[..n]) + if Above(g, requests[n].id) && granted then 1 else 0
  }

  function CountAbove(g: Guaranteed, requests: seq<Request>): nat {
    if requests == [] then 0
    else
      var n := |requests| - 1;
      CountAbove(g, requests[..n]) + if Above(g, requests[n].id) then 1 else 0
  }

  lemma {:induction false} DecisionsKeepSettings(g: Guaranteed, requests: seq<Request>)
    requires g.Consistent()
    ensures var after := AfterAll(g, requests);
            after.Consistent() && after.Told() == g.Told() && after.limiter == After(g.limiter, Times(requests))
  {
    if requests != [] {
      DecisionsKeepSettings(g, requests[..|requests| - 1]);
    }
    EveryDecisionAsks(g, requests);
  }

  lemma DecisionAfter(g: Guaranteed, requests: seq<Request>, request: Request)
    requires g.Consistent()
    ensures Decision(AfterAll(g, requests), request.id, request.time).sampled <==>
              !Above(g, request.id) || Granted(After(g.limiter, Times(requests)), request.time, 1.0)
  {
    DecisionsKeepSettings(g, requests);
    DecisionExactly(AfterAll(g, requests), request.id, request.time);
  }

  lemma {:induction false} SampledAreGranted(g: Guaranteed, requests: seq<Request>)
    requires g.Consistent()
    ensures SampledAbove(g, requests) == GrantsAbove(g, requests)
    ensures SampledAmong(g, requests) == |requests| - CountAbove(g, requests) + SampledAbove(g, requests)
  {
    if requests != [] {
      var n := |requests| - 1;
      SampledAreGranted(g, requests[..n]);
      DecisionAfter(g, requests[..n], requests[n]);
    }
  }

  lemma {:induction false} GrantsAboveAreGrants(g: Guaranteed, requests: seq<Request>)
    ensures GrantsAbove(g, requests) <= Grants(g.limiter, Times(requests))
  {
    if requests != [] {
      var n := |requests| - 1;
      GrantsAboveAreGrants(g, requests[..n]);
      assert Times(requests)[..n] == Times(requests[..n]);
    }
  }

  /** In any run of decisions, every trace up to the boundary is sampled, and of those above it exactly
      the ones that were granted a credit: at most the limiter's room and what was earned meanwhile. */
  lemma SamplingIsBounded(g: Guaranteed, requests: seq<Request>)
    requires g.Consistent() && Sane(g.limiter) && requests != [] && Forward(g.limiter, Times(requests))
    ensures SampledAmong(g, requests) == |requests| - CountAbove(g, requests) + GrantsAbove(g, requests)
    ensures GrantsAbove(g, requests) as real
         <= g.limiter.maxBalance + Earned(g.limiter, requests[|requests| - 1].time)
  {
    SampledAreGranted(g, requests);
    GrantsAboveAreGrants(g, requests);
    GrantsAreBounded(g.limiter, Times(requests));
  }

  // ---- Samplers in use ----

  /** A decision or an update at a time. */
  datatype Use = Decide(id: TraceID, time: real) | Update(lowerBound: real, rate: real, time: real)

  function Used(g: Guaranteed, use: Use): Guaranteed {
    match use
    case Decide(_, time) => Decided(g, time)
    case Update(lowerBound, rate, time) => Updated(g, lowerBound, rate, time)
  }

  function UsedAll(g: Guaranteed, uses: seq<Use>): Guaranteed {
    if uses == [] then g else Used(UsedAll(g, uses[..|uses| - 1]), uses[|uses| - 1])
  }

  /** Time never goes back, and no lower bound is negative. */
  predicate Sensible(g: Guaranteed, uses: seq<Use>) {
    if uses == [] then true
    else
      var n := |uses| - 1;
      && Sensible(g, uses[..n])
      && UsedAll(g, uses[..n]).limiter.lastTick <= uses[n].time
      && (uses[n].Update? ==> uses[n].lowerBound >= 0.0)
  }

  lemma {:induction false} UseKeepsSane(g: Guaranteed, uses: seq<Use>)
    requires g.Consistent() && Sane(g.limiter) && Sensible(g, uses)
    ensures UsedAll(g, uses).Consistent() && Sane(UsedAll(g, uses).limiter)
  {
    if uses != [] {
      var n := |uses| - 1;
      var mid := UsedAll(g, uses[..n]);
      UseKeepsSane(g, uses[..n]);
      match uses[n]
      case Decide(_, time) =>
        assert [time][..0] == [];
        CreditIsConserved(mid.limiter, [time]);
        assert After(mid.limiter, [time]) == Checked(mid.limiter, time, 1.0);
      case Update(lowerBound, rate, time) =>
        UpdateRenews(mid, lowerBound, rate, time);
        NewLimiterIsSane(lowerBound, time);
    }
  }

  lemma NewIsSane(lowerBound: real, rate: real, made: real)
    requires lowerBound >= 0.0
    ensures Sane(NewGuaranteed(lowerBound, rate, made).limiter)
  {
    NewLimiterIsSane(lowerBound, made);
  }

  lemma ThroughputAfterUses(g: Guaranteed, uses: seq<Use>, requests: seq<Request>)
    requires g.Consistent() && Sane(g.limiter) && Sensible(g, uses)
    requires requests != [] && Forward(UsedAll(g, uses).limiter, Times(requests))
    requires Earned(UsedAll(g, uses).limiter, requests[|requests| - 1].time) >= 1.0
    ensures SampledAmong(UsedAll(g, uses), requests) > 0
  {
    UseKeepsSane(g, uses);
    ThroughputIsGuaranteed(UsedAll(g, uses), requests);
  }

  /** The guarantee for every sampler made with a lower bound that is not negative, after any
      decisions and updates: in a run of decisions that earns a credit, some trace is sampled. */
  lemma ThroughputAfterAnyUse(lowerBound: real, rate: real, made: real, uses: seq<Use>, requests: seq<Request>)
    requires lowerBound >= 0.0 && Sensible(NewGuaranteed(lowerBound, rate, made), uses)
    requires requests != []
    requires Forward(UsedAll(NewGuaranteed(lowerBound, rate, made), uses).limiter, Times(requests))
    requires Earned(UsedAll(NewGuaranteed(lowerBound, rate, made), uses).limiter, requests[|requests| - 1].time) >= 1.0
    ensures SampledAmong(UsedAll(NewGuaranteed(lowerBound, rate, made), uses), requests) > 0
  {
    NewIsSane(lowerBound, rate, made);
    ThroughputAfterUses(NewGuaranteed(lowerBound, rate, made), uses, requests);
  }

  /** A sampler that is new, or whose lower bound has just changed, samples its next trace. */
  lemma FirstDecisionSamples(g: Guaranteed, lowerBound: real, rate: real, now: real, request: Request)
    requires g.Consistent() && lowerBound >= 0.0 && now <= request.time
    ensures Decision(NewGuaranteed(lowerBound, rate, now), request.id, request.time).sampled
    ensures lowerBound != g.lowerBound ==> Decision(Updated(g, lowerBound, rate, now), request.id, request.time).sampled
  {
    UpdateRenews(g, lowerBound, rate, now);
    NewLimiterIsSane(lowerBound, now);
    EarnsOnlyForward(NewLimiter(lowerBound, now), request.time);
  }
}
