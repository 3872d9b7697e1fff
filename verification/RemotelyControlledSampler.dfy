/**
 The sampler that follows a remote controller: polls replace or update the sampler in use.
 */
module RemoteSampling {
  import opened Options
  import opened SpanContexts
  import opened RateLimiting
  import opened ProbabilisticSampling
  import opened AdaptiveSampling

  /** What the sampling manager gives: an exception, or a response by the fields that are set. */
  datatype Response =
    | QueryFailed
    | Response(operationSampling: Option<Strategies>, probabilistic: Option<real>, rateLimiting: Option<real>)

  const NO_STRATEGY := Response(None, None, None)

  /** A response as parsed from the body. */
  type Body = r: Response | r.Response? witness Response(None, None, None)

  /** What asking the server comes to: an exception on the way, or a status and a body, None if
      that cannot be parsed. */
  datatype Answer = Threw | Replied(status: int, body: Option<Body>)

  /** getSamplingStrategy.  Without a server's address, or with another status than 200, it returns
      and leaves the response as it was. */
  function Fetched(serverKnown: bool, answer: Answer): Response {
    if !serverKnown then NO_STRATEGY
    else
      match answer
      case Threw => QueryFailed
      case Replied(status, body) =>
        if status != 200 then NO_STRATEGY
        else if body.None? then QueryFailed
        else body.value
  }

  type int32 = n: int | -0x8000_0000 <= n < 0x8000_0000

  /** int to size_t: a negative number of operations is no cap at all. */
  function AsSize(n: int32): nat {
    if n < 0 then n + 0x1_0000_0000_0000_0000 else n
  }

  /** The sampler in use; `Given` is one of another type that was handed to the constructor. */
  datatype Current =
    | Given
    | Adapting(adaptive: Adaptive)
    | ByRateOnly(probabilistic: Probabilistic)
    | ByLimit(limiter: Limiter)

  datatype Metrics = Metrics(queryFailure: nat, retrieved: nat, updated: nat, updateFailure: nat)

  datatype Remote = Remote(current: Current, maxOperations: int32, metrics: Metrics)

  /** The response has nothing this sampler supports. */
  predicate Unsupported(r: Response) {
    r.Response? && r.operationSampling.None? && r.probabilistic.None? && r.rateLimiting.None?
  }

  /** An adaptive sampler is updated, any other is replaced. */
  function AdaptiveFrom(current: Current, s: Strategies, maxOperations: int32, now: real): Adaptive {
    if current.Adapting? then UpdatedAdaptive(current.adaptive, s, now)
    else NewAdaptive(s, AsSize(maxOperations), now)
  }

  function Followed(current: Current, r: Response, maxOperations: int32, now: real): Current
    requires r.Response? && !Unsupported(r)
  {
    if r.operationSampling.Some? then
      Adapting(AdaptiveFrom(current, r.operationSampling.value, maxOperations, now))
    else if r.probabilistic.Some? then ByRateOnly(NewProbabilistic(r.probabilistic.value))
    else ByLimit(NewLimiter(r.rateLimiting.value, now))
  }

  function Polled(remote: Remote, r: Response, now: real): Remote {
    var m := remote.metrics;
    if r.QueryFailed? then remote.(metrics := m.(queryFailure := m.queryFailure + 1))
    else if Unsupported(r) then
      remote.(metrics := m.(retrieved := m.retrieved + 1, updateFailure := m.updateFailure + 1))
    else
      remote.(current := Followed(remote.current, r, remote.maxOperations, now),
              metrics := m.(retrieved := m.retrieved + 1, updated := m.updated + 1))
  }

  /** Which counter a poll raises besides that of responses retrieved: a query failure is an exception
      or a body that cannot be parsed; an unknown server, an error status and a body without
      strategies are failed updates. */
  lemma PollCounters(remote: Remote, serverKnown: bool, answer: Answer, now: real)
    ensures var before, after := remote.metrics, Polled(remote, Fetched(serverKnown, answer), now).metrics;
            var parsed := serverKnown && answer.Replied? && answer.status == 200 && answer.body.Some?;
            && (after.updated == before.updated + 1 <==> parsed && !Unsupported(answer.body.value))
            && (after.queryFailure == before.queryFailure + 1 <==>
                  serverKnown && (answer.Threw? || (answer.status == 200 && answer.body.None?)))
            && (after.updateFailure == before.updateFailure + 1 <==>
                  || !serverKnown || (answer.Replied? && answer.status != 200)
                  || (parsed && Unsupported(answer.body.value)))
            && (after.retrieved == before.retrieved + 1 <==> after.queryFailure == before.queryFailure)
  {
  }

  /** A poll that brings no strategies is counted as a failed query exactly when the known server's
      answer was an exception or a status of 200 with a body that cannot be parsed. */
  lemma EmptyPollIsQueryFailure(remote: Remote, serverKnown: bool, answer: Answer, now: real)
    requires var r := Fetched(serverKnown, answer); r.QueryFailed? || Unsupported(r)
    ensures Polled(remote, Fetched(serverKnown, answer), now).current == remote.current
    ensures Polled(remote, Fetched(serverKnown, answer), now).metrics.queryFailure > remote.metrics.queryFailure
       <==> serverKnown && (answer.Threw? || (answer.status == 200 && answer.body.None?))
  {
  }

  function Asked(remote: Remote, operation: string, now: real): Remote {
    match remote.current
    case Adapting(a) => remote.(current := Adapting(AdaptiveDecided(a, operation, now)))
    case ByLimit(l) => remote.(current := ByLimit(Checked(l, now, 1.0)))
    case _ => remote
  }

  datatype Held =
    | HeldGiven
    | HeldAdaptive(sampler: AdaptiveSampler)
    | HeldProbabilistic(probabilistic: Probabilistic)
    | HeldLimiter(limiter: RateLimiter)

  ghost function Footprint(held: Held): set<object>
    reads if held.HeldAdaptive? then {held.sampler} else {}
  {
    match held
    case HeldAdaptive(a) => {a} + a.Repr
    case HeldLimiter(l) => {l}
    case _ => {}
  }

  class RemotelyControlledSampler {
    var sampler: Held
    const maxOperations: int32
    const serverKnown: bool  // whether the sampling manager could connect when it was made
    var metrics: Metrics
    ghost var Repr: set<object>

    ghost predicate Valid()
      reads this`sampler, this`Repr, Repr
    {
      && this !in Repr
      && (sampler.HeldAdaptive? ==>
            sampler.sampler in Repr && sampler.sampler.Repr <= Repr && sampler.sampler.Valid())
      && (sampler.HeldLimiter? ==> sampler.limiter in Repr)
    }

    ghost function Uses(): Current
      requires Valid()
      reads this`sampler, this`Repr, Repr
    {
      match sampler
      case HeldGiven => Given
      case HeldAdaptive(a) => Adapting(a.Now())
      case HeldProbabilistic(p) => ByRateOnly(p)
      case HeldLimiter(l) => ByLimit(l.Now())
    }

    ghost function Now(): Remote
      requires Valid()
      reads this, Repr
    {
      Remote(Uses(), maxOperations, metrics)
    }

    /** The sampler handed over is used, and an adaptive one updated, as it is. */
    constructor (initial: Held, maxOperations: int32, serverKnown: bool)
      requires initial.HeldAdaptive? ==> initial.sampler.Valid()
      ensures Valid() && sampler == initial && this.serverKnown == serverKnown
      ensures fresh(Repr - Footprint(initial))
      ensures Now() == Remote(Uses(), maxOperations, Metrics(0, 0, 0, 0))
    {
      sampler := initial;
      this.maxOperations, this.serverKnown := maxOperations, serverKnown;
      metrics, Repr := Metrics(0, 0, 0, 0), Footprint(initial);
    }

    /** Only an exception or a body that cannot be parsed is a failed query; without a server or with
        an error status there are no strategies, and otherwise those of the body. */
    method GetSamplingStrategy(answer: Answer) returns (response: Response)
      ensures response.QueryFailed? <==>
                serverKnown && (answer.Threw? || (answer.status == 200 && answer.body.None?))
      ensures !serverKnown || (answer.Replied? && answer.status != 200) ==> response == NO_STRATEGY
      ensures serverKnown && answer.Replied? && answer.status == 200 && answer.body.Some? ==>
                response == answer.body.value
    {
      if !serverKnown {
        return NO_STRATEGY;
      }
      if answer.Threw? {
        return QueryFailed;
      }
      if answer.status != 200 {
        return NO_STRATEGY;
      }
      if answer.body.None? {
        return QueryFailed;
      }
      return answer.body.value;
    }

    method UpdateSampler(answer: Answer, now: real)
      requires Valid()
      modifies this, Repr
      ensures Valid() && fresh(Repr - old(Repr))
      ensures Now() == Polled(old(Now()), Fetched(serverKnown, answer), now)
    {
      var response := GetSamplingStrategy(answer);
      if response.QueryFailed? {
        Count(metrics.(queryFailure := metrics.queryFailure + 1));
        return;
      }
      var failed := Follow(response, now);
      Count(metrics.(retrieved := metrics.retrieved + 1));
      if failed {
        Count(metrics.(updateFailure := metrics.updateFailure + 1));
      } else {
        Count(metrics.(updated := metrics.updated + 1));
      }
    }

    method Count(counts: Metrics)
      requires Valid()
      modifies this`metrics
      ensures Valid() && Uses() == old(Uses()) && metrics == counts
    {
      metrics := counts;
    }

    method Follow(response: Response, now: real) returns (failed: bool)
      requires Valid() && response.Response?
      modifies this`sampler, this`Repr, Repr
      ensures Valid() && fresh(Repr - old(Repr))
      ensures failed <==> Unsupported(response)
      ensures Uses() == if failed then old(Uses()) else Followed(old(Uses()), response, maxOperations, now)
    {
      if response.operationSampling.Some? {
        UpdateAdaptiveSampler(response.operationSampling.value, now);
        return false;
      }
      failed := UpdateRateLimitingOrProbabilisticSampler(response, now);
    }

    method UpdateAdaptiveSampler(strategies: Strategies, now: real)
      requires Valid()
      modifies this`sampler, this`Repr, Repr
      ensures Valid() && fresh(Repr - old(Repr))
      ensures Uses() == Adapting(AdaptiveFrom(old(Uses()), strategies, maxOperations, now))
    {
      if sampler.HeldAdaptive? {
        UpdateInPlace(strategies, now);
      } else {
        ReplaceByAdaptive(strategies, now);
      }
    }

    method UpdateInPlace(strategies: Strategies, now: real)
      requires Valid() && sampler.HeldAdaptive?
      modifies this`Repr, Repr
      ensures Valid() && fresh(Repr - old(Repr))
      ensures Uses() == Adapting(UpdatedAdaptive(old(Uses()).adaptive, strategies, now))
    {
      sampler.sampler.Update(strategies, now);
      Repr := Repr + sampler.sampler.Repr;
    }

    method ReplaceByAdaptive(strategies: Strategies, now: real)
      modifies this`sampler, this`Repr
      ensures Valid() && fresh(Repr)
      ensures Uses() == Adapting(NewAdaptive(strategies, AsSize(maxOperations), now))
    {
      var adaptive := new AdaptiveSampler(strategies, AsSize(maxOperations), now);
      sampler := HeldAdaptive(adaptive);
      Repr := {adaptive} + adaptive.Repr;
    }

    method UpdateRateLimitingOrProbabilisticSampler(response: Response, now: real) returns (failed: bool)
      requires Valid() && response.Response? && response.operationSampling.None?
      modifies this`sampler, this`Repr
      ensures Valid() && fresh(Repr - old(Repr))
      ensures failed <==> Unsupported(response)
      ensures Uses() == if failed then old(Uses()) else Followed(old(Uses()), response, maxOperations, now)
    {
      if response.probabilistic.Some? {
        sampler := HeldProbabilistic(NewProbabilistic(response.probabilistic.value));
      } else if response.rateLimiting.Some? {
        var maxTracesPerSecond := response.rateLimiting.value;
        var limiter := new RateLimiter(maxTracesPerSecond, Max(maxTracesPerSecond, 1.0), now);
        sampler := HeldLimiter(limiter);
        Repr := {limiter};
      } else {
        return true;
      }
      return false;
    }

    /** `given` is the answer of the sampler handed to the constructor, should it still be in use. */
    method IsSampled(id: TraceID, operation: string, now: real, given: bool) returns (sampled: bool)
      requires Valid()
      modifies this`Repr, Repr
      ensures Valid() && fresh(Repr - old(Repr))
      ensures Now() == Asked(old(Now()), operation, now)
      ensures sampled == match old(Now()).current
                         case Given => given
                         case Adapting(a) => AdaptiveDecision(a, id, operation, now).sampled
                         case ByRateOnly(p) => p.IsSampled(id)
                         case ByLimit(l) => Granted(l, now, 1.0)
    {
      match sampler {
        case HeldGiven => return given;
        case HeldAdaptive(a) =>
          var status := a.IsSampled(id, operation, now);
          Repr := Repr + a.Repr;
          return status.sampled;
        case HeldProbabilistic(p) => return p.IsSampled(id);
        case HeldLimiter(l) => sampled := l.CheckCredit(now, 1.0);
      }
    }
  }
}
