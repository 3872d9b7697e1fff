/**
 One guaranteed-throughput sampler for each operation, made on demand up to a cap and updated
 from per-operation strategies.
 */
module AdaptiveSampling {
  import opened Options
  import opened SpanContexts
  import opened RateLimiting
  import opened ProbabilisticSampling
  import opened GuaranteedThroughput

  datatype Strategy = Strategy(operation: string, samplingRate: real)

  datatype Strategies = Strategies(
    defaultSamplingProbability: real,
    defaultLowerBound: real,
    perOperation: seq<Strategy>)

  type Samplers = map<string, Guaranteed>

  datatype Adaptive = Adaptive(
    samplers: Samplers,
    default: Probabilistic,
    lowerBound: real,
    maxOperations: nat)

  function FromStrategies(lowerBound: real, strategies: seq<Strategy>, now: real): Samplers {
    if strategies == [] then map[]
    else
      var n := |strategies| - 1;
      FromStrategies(lowerBound, strategies[..n], now)
        [strategies[n].operation := NewGuaranteed(lowerBound, strategies[n].samplingRate, now)]
  }

  function NewAdaptive(s: Strategies, maxOperations: nat, now: real): Adaptive {
    Adaptive(FromStrategies(s.defaultLowerBound, s.perOperation, now),
             NewProbabilistic(s.defaultSamplingProbability), s.defaultLowerBound, maxOperations)
  }

  function UpdatedOne(m: Samplers, lowerBound: real, strategy: Strategy, now: real): Samplers {
    m[strategy.operation :=
      if strategy.operation in m then Updated(m[strategy.operation], lowerBound, strategy.samplingRate, now)
      else NewGuaranteed(lowerBound, strategy.samplingRate, now)]
  }

  function UpdatedAll(m: Samplers, lowerBound: real, strategies: seq<Strategy>, now: real): Samplers {
    if strategies == [] then m
    else
      var n := |strategies| - 1;
      UpdatedOne(UpdatedAll(m, lowerBound, strategies[..n], now), lowerBound, strategies[n], now)
  }

  /** The defaults stay those of the construction. */
  function UpdatedAdaptive(a: Adaptive, s: Strategies, now: real): Adaptive {
    a.(samplers := UpdatedAll(a.samplers, s.defaultLowerBound, s.perOperation, now))
  }

  /** The sampler that decides for an operation, if it is not the default sampler. */
  function Responsible(a: Adaptive, operation: string, now: real): Option<Guaranteed> {
    if operation in a.samplers then Some(a.samplers[operation])
    else if |a.samplers| >= a.maxOperations then None
    else Some(NewGuaranteed(a.lowerBound, a.default.samplingRate, now))
  }

  function AdaptiveDecision(a: Adaptive, id: TraceID, operation: string, now: real): Status {
    match Responsible(a, operation, now)
    case Some(g) => Decision(g, id, now)
    case None => ByRate(a.default.IsSampled(id), a.default.samplingRate)
  }

  function AdaptiveDecided(a: Adaptive, operation: string, now: real): Adaptive {
    match Responsible(a, operation, now)
    case Some(g) => a.(samplers := a.samplers[operation := Decided(g, now)])
    case None => a
  }

  lemma SameSize<K, V, W>(m: map<K, V>, n: map<K, W>)
    requires m.Keys == n.Keys
    ensures |m| == |n|
  {
    assert |m.Keys| == |n.Keys|;
  }

  class AdaptiveSampler {
    var samplers: map<string, GuaranteedSampler>
    const default: Probabilistic
    const lowerBound: real
    const maxOperations: nat

    ghost var Repr: set<object>

    /** No two operations share a sampler or a limiter. */
    ghost predicate Valid()
      reads this, Repr
    {
      && this !in Repr
      && (forall op | op in samplers :: samplers[op] in Repr && samplers[op].limiter in Repr)
      && (forall a, b | a in samplers && b in samplers && a != b ::
            samplers[a] != samplers[b] && samplers[a].limiter != samplers[b].limiter)
    }

    ghost function Values(): (values: Samplers)
      requires Valid()
      reads this, Repr
      ensures values.Keys == samplers.Keys
    {
      map op | op in samplers :: samplers[op].Now()
    }

    ghost function Now(): Adaptive
      requires Valid()
      reads this, Repr
    {
      Adaptive(Values(), default, lowerBound, maxOperations)
    }

    constructor (strategies: Strategies, maxOperations: nat, now: real)
      ensures Valid() && fresh(Repr)
      ensures Now() == NewAdaptive(strategies, maxOperations, now)
    {
      samplers, Repr := map[], {};
      default := NewProbabilistic(strategies.defaultSamplingProbability);
      lowerBound := strategies.defaultLowerBound;
      this.maxOperations := maxOperations;
      new;
      var perOperation := strategies.perOperation;
      for i := 0 to |perOperation|
        invariant Valid() && fresh(Repr)
        invariant Values() == FromStrategies(lowerBound, perOperation[..i], now)
      {
        assert perOperation[..i + 1][..i] == perOperation[..i];
        Make(perOperation[i].operation, lowerBound, perOperation[i].samplingRate, now);
      }
      assert perOperation[..|perOperation|] == perOperation;
    }

    method Put(operation: string, sampler: GuaranteedSampler)
      requires Valid() && sampler !in Repr && sampler.limiter !in Repr
      modifies this
      ensures Valid() && samplers == old(samplers)[operation := sampler]
      ensures Repr == old(Repr) + {sampler, sampler.limiter}
      ensures Values() == old(Values())[operation := sampler.Now()]
    {
      samplers := samplers[operation := sampler];
      Repr := Repr + {sampler, sampler.limiter};
    }

    method Make(operation: string, lowerBound: real, rate: real, now: real)
      requires Valid()
      modifies this
      ensures Valid() && fresh(Repr - old(Repr)) && samplers.Keys == old(samplers).Keys + {operation}
      ensures Values() == old(Values())[operation := NewGuaranteed(lowerBound, rate, now)]
    {
      var sampler := new GuaranteedSampler(lowerBound, rate, now);
      Put(operation, sampler);
    }

    method Renew(operation: string, lowerBound: real, rate: real, now: real)
      requires Valid() && operation in samplers
      modifies this`Repr, Repr
      ensures Valid() && fresh(Repr - old(Repr))
      ensures Values() == old(Values())[operation := Updated(old(Values())[operation], lowerBound, rate, now)]
    {
      var sampler := samplers[operation];
      sampler.Update(lowerBound, rate, now);
      Repr := Repr + {sampler.limiter};
      assert forall op | op in samplers && op != operation ::
          samplers[op] != sampler && samplers[op].limiter != sampler.limiter
          && samplers[op].limiter == old(samplers[op].limiter);
      assert Valid();
      ghost var value := sampler.Now();
      assert forall op | op in samplers && op != operation :: samplers[op].Now() == old(samplers[op].Now());
      assert Values() == old(Values())[operation := value];
    }

    method Ask(id: TraceID, operation: string, now: real) returns (status: Status)
      requires Valid() && operation in samplers
      modifies Repr
      ensures Valid() && samplers == old(samplers) && Repr == old(Repr)
      ensures status == Decision(old(Values())[operation], id, now)
      ensures Values() == old(Values())[operation := Decided(old(Values())[operation], now)]
    {
      status := samplers[operation].IsSampled(id, now);
    }

    method AskNew(id: TraceID, operation: string, now: real) returns (status: Status)
      requires Valid()
      modifies this, Repr
      ensures Valid() && fresh(Repr - old(Repr))
      ensures var sampler := NewGuaranteed(lowerBound, default.samplingRate, now);
              status == Decision(sampler, id, now) && Values() == old(Values())[operation := Decided(sampler, now)]
    {
      Make(operation, lowerBound, default.samplingRate, now);
      status := Ask(id, operation, now);
    }

    method IsSampled(id: TraceID, operation: string, now: real) returns (status: Status)
      requires Valid()
      modifies this, Repr
      ensures Valid() && fresh(Repr - old(Repr))
      ensures status == AdaptiveDecision(old(Now()), id, operation, now)
      ensures Now() == AdaptiveDecided(old(Now()), operation, now)
    {
      ghost var before := Now();
      SameSize(samplers, before.samplers);
      if operation in samplers {
        assert Responsible(before, operation, now) == Some(before.samplers[operation]);
        status := Ask(id, operation, now);
        return;
      }
      if |samplers| >= maxOperations {
        assert Responsible(before, operation, now) == None;
        return ByRate(default.IsSampled(id), default.samplingRate);
      }
      assert Responsible(before, operation, now) == Some(NewGuaranteed(lowerBound, default.samplingRate, now));
      status := AskNew(id, operation, now);
    }

    method UpdateOne(strategy: Strategy, lowerBound: real, now: real)
      requires Valid()
      modifies this, Repr
      ensures Valid() && fresh(Repr - old(Repr))
      ensures Values() == UpdatedOne(old(Values()), lowerBound, strategy, now)
    {
      var operation := strategy.operation;
      if operation in samplers {
        Renew(operation, lowerBound, strategy.samplingRate, now);
      } else {
        Make(operation, lowerBound, strategy.samplingRate, now);
      }
    }

    method Update(strategies: Strategies, now: real)
      requires Valid()
      modifies this, Repr
      ensures Valid() && fresh(Repr - old(Repr))
      ensures Now() == UpdatedAdaptive(old(Now()), strategies, now)
    {
      var perOperation := strategies.perOperation;
      for i := 0 to |perOperation|
        invariant Valid() && fresh(Repr - old(Repr))
        invariant Values() == UpdatedAll(old(Values()), strategies.defaultLowerBound, perOperation[..i], now)
      {
        assert perOperation[..i + 1][..i] == perOperation[..i];
        UpdateOne(perOperation[i], strategies.defaultLowerBound, now);
      }
      assert perOperation[..|perOperation|] == perOperation;
    }
  }

  // ---- What updates and decisions do to the entries ----

  /** The rate of the last strategy for an operation. */
  function LastRate(strategies: seq<Strategy>, operation: string): Option<real> {
    if strategies == [] then None
    else
      var n := |strategies| - 1;
      if strategies[n].operation == operation then Some(strategies[n].samplingRate)
      else LastRate(strategies[..n], operation)
  }

  function Names(strategies: seq<Strategy>): set<string> {
    if strategies == [] then {}
    else
      var n := |strategies| - 1;
      Names(strategies[..n]) + {strategies[n].operation}
  }

  lemma {:induction false} NamedHasRate(strategies: seq<Strategy>, operation: string)
    ensures operation in Names(strategies) <==> LastRate(strategies, operation).Some?
  {
    if strategies != [] {
      NamedHasRate(strategies[..|strategies| - 1], operation);
    }
  }

  ghost predicate AllConsistent(m: Samplers) {
    forall op <- m :: m[op].Consistent()
  }

  lemma {:induction false} UpdateKeepsConsistent(m: Samplers, lowerBound: real, strategies: seq<Strategy>, now: real)
    requires AllConsistent(m)
    ensures AllConsistent(UpdatedAll(m, lowerBound, strategies, now))
    ensures UpdatedAll(m, lowerBound, strategies, now).Keys == m.Keys + Names(strategies)
  {
    if strategies != [] {
      var n := |strategies| - 1;
      var before := UpdatedAll(m, lowerBound, strategies[..n], now);
      UpdateKeepsConsistent(m, lowerBound, strategies[..n], now);
      if strategies[n].operation in before {
        UpdateRenews(before[strategies[n].operation], lowerBound, strategies[n].samplingRate, now);
      }
    }
  }

  /** An update settles each operation it names by the last strategy that names it, and leaves
      the others alone. */
  lemma {:induction false} UpdateSettles(m: Samplers, lowerBound: real, strategies: seq<Strategy>, now: real,
                                         op: string)
    requires AllConsistent(m)
    ensures var after := UpdatedAll(m, lowerBound, strategies, now);
            match LastRate(strategies, op)
            case Some(rate) => op in after && after[op].Told() == Setting(lowerBound, Clamp(rate))
            case None => (op in after <==> op in m) && (op in m ==> after[op] == m[op])
  {
    if strategies != [] {
      var n := |strategies| - 1;
      var before := UpdatedAll(m, lowerBound, strategies[..n], now);
      UpdateSettles(m, lowerBound, strategies[..n], now, op);
      UpdateKeepsConsistent(m, lowerBound, strategies[..n], now);
      if strategies[n].operation == op && op in before {
        UpdateRenews(before[op], lowerBound, strategies[n].samplingRate, now);
      }
    }
  }

  /** A new sampler is what an update makes of nothing. */
  lemma {:induction false} ConstructionIsUpdate(lowerBound: real, strategies: seq<Strategy>, now: real)
    ensures FromStrategies(lowerBound, strategies, now) == UpdatedAll(map[], lowerBound, strategies, now)
    ensures forall op <- FromStrategies(lowerBound, strategies, now) ::
              FromStrategies(lowerBound, strategies, now)[op].limiter == NewLimiter(lowerBound, now)
  {
    if strategies != [] {
      var n := |strategies| - 1;
      var before := UpdatedAll(map[], lowerBound, strategies[..n], now);
      ConstructionIsUpdate(lowerBound, strategies[..n], now);
      UpdateKeepsConsistent(map[], lowerBound, strategies[..n], now);
      UpdateSettles(map[], lowerBound, strategies[..n], now, strategies[n].operation);
      if strategies[n].operation in before {
        UpdateRenews(before[strategies[n].operation], lowerBound, strategies[n].samplingRate, now);
        NamedHasRate(strategies[..n], strategies[n].operation);
      }
    }
  }

  /** Decisions add an entry only below the cap, and only for an operation that has none. */
  lemma {:induction false} CapBindsDecisions(a: Adaptive, operation: string, now: real)
    ensures AdaptiveDecided(a, operation, now).samplers.Keys
         == a.samplers.Keys + if |a.samplers| < a.maxOperations then {operation} else {}
    ensures forall op <- a.samplers | op != operation ::
              AdaptiveDecided(a, operation, now).samplers[op] == a.samplers[op]
  {
  }

  /** The cap does not bind updates: every operation named has an entry afterwards. */
  lemma UpdatesIgnoreCap(a: Adaptive, s: Strategies, now: real)
    requires AllConsistent(a.samplers)
    ensures UpdatedAdaptive(a, s, now).samplers.Keys == a.samplers.Keys + Names(s.perOperation)
    ensures UpdatedAdaptive(a, s, now).default == a.default && UpdatedAdaptive(a, s, now).lowerBound == a.lowerBound
  {
    UpdateKeepsConsistent(a.samplers, s.defaultLowerBound, s.perOperation, now);
  }

  // ---- Each operation has a sampler of its own ----

  datatype Call = Call(operation: string, request: Request)

  function AdaptiveAfter(a: Adaptive, calls: seq<Call>): Adaptive {
    if calls == [] then a
    else
      var n := |calls| - 1;
      AdaptiveDecided(AdaptiveAfter(a, calls[..n]), calls[n].operation, calls[n].request.time)
  }

  /** The requests for one operation. */
  function Only(operation: string, calls: seq<Call>): seq<Request> {
    if calls == [] then []
    else
      var n := |calls| - 1;
      Only(operation, calls[..n]) + if calls[n].operation == operation then [calls[n].request] else []
  }

  /** How many traces of an operation were sampled. */
  function AdaptiveSampled(a: Adaptive, operation: string, calls: seq<Call>): nat {
    if calls == [] then 0
    else
      var n := |calls| - 1;
      var request := calls[n].request;
      var status := AdaptiveDecision(AdaptiveAfter(a, calls[..n]), request.id, calls[n].operation, request.time);
      AdaptiveSampled(a, operation, calls[..n])
      + if calls[n].operation == operation && status.sampled then 1 else 0
  }

  lemma PushRequest(g: Guaranteed, requests: seq<Request>, request: Request)
    ensures AfterAll(g, requests + [request]) == Decided(AfterAll(g, requests), request.time)
    ensures SampledAmong(g, requests + [request]) == SampledAmong(g, requests)
            + if Decision(AfterAll(g, requests), request.id, request.time).sampled then 1 else 0
  {
    assert (requests + [request])[..|requests|] == requests;
  }

  /** However the operations interleave, an operation that has a sampler is sampled as by that sampler
      alone. */
  lemma {:induction false} OperationsAreIndependent(a: Adaptive, operation: string, calls: seq<Call>)
    requires operation in a.samplers
    ensures var after, g := AdaptiveAfter(a, calls), a.samplers[operation];
            && operation in after.samplers && after.samplers[operation] == AfterAll(g, Only(operation, calls))
            && AdaptiveSampled(a, operation, calls) == SampledAmong(g, Only(operation, calls))
  {
    if calls != [] {
      var n := |calls| - 1;
      var g, front := a.samplers[operation], calls[..n];
      OperationsAreIndependent(a, operation, front);
      CapBindsDecisions(AdaptiveAfter(a, front), calls[n].operation, calls[n].request.time);
      PushRequest(g, Only(operation, front), calls[n].request);
      assert Only(operation, front) + [] == Only(operation, front);
    }
  }

  /** An operation without a sampler gets one with the defaults below the cap; at the cap the default
      rate alone decides, and nothing changes. */
  lemma FirstDecision(a: Adaptive, id: TraceID, operation: string, now: real)
    requires operation !in a.samplers && a.default == NewProbabilistic(a.default.samplingRate)
    ensures |a.samplers| >= a.maxOperations ==>
              && AdaptiveDecided(a, operation, now) == a
              && (AdaptiveDecision(a, id, operation, now).sampled <==>
                    id.low <= NewProbabilistic(a.default.samplingRate).boundary)
    ensures |a.samplers| < a.maxOperations ==>
              var g := NewGuaranteed(a.lowerBound, a.default.samplingRate, now);
              && AdaptiveDecided(a, operation, now).samplers == a.samplers[operation := Decided(g, now)]
              && AdaptiveDecision(a, id, operation, now) == Decision(g, id, now)
  {
  }
}
