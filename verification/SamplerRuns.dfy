/**
 Runs of polls and decisions: what the sampler in use owes to the strategies received.
 */
module SamplerRuns {
  import opened Options
  import opened SpanContexts
  import opened RateLimiting
  import opened ProbabilisticSampling
  import opened GuaranteedThroughput
  import opened AdaptiveSampling
  import opened RemoteSampling

  datatype Event = Poll(response: Response, now: real) | Ask(operation: string, now: real)

  function Apply(remote: Remote, e: Event): Remote {
    match e
    case Poll(response, now) => Polled(remote, response, now)
    case Ask(operation, now) => Asked(remote, operation, now)
  }

  function Run(remote: Remote, events: seq<Event>): Remote {
    if events == [] then remote
    else Apply(Run(remote, events[..|events| - 1]), events[|events| - 1])
  }

  function Start(given: Current, maxOperations: int32): Remote {
    Remote(given, maxOperations, Metrics(0, 0, 0, 0))
  }

  /** The per-operation strategies followed since the sampler last became adaptive, oldest first;
      none if it is not adaptive.  `first` are those of a sampler that was adaptive from the start. */
  function Epoch(first: seq<Strategies>, events: seq<Event>): seq<Strategies> {
    if events == [] then first
    else
      var n := |events| - 1;
      EpochAfter(Epoch(first, events[..n]), events[n])
  }

  function EpochAfter(epoch: seq<Strategies>, e: Event): seq<Strategies> {
    if e.Ask? || e.response.QueryFailed? || Unsupported(e.response) then epoch
    else if e.response.operationSampling.Some? then epoch + [e.response.operationSampling.value]
    else []
  }

  function NamesIn(epoch: seq<Strategies>): set<string> {
    if epoch == [] then {}
    else
      var n := |epoch| - 1;
      NamesIn(epoch[..n]) + Names(epoch[n].perOperation)
  }

  /** The settings an operation should have: those of the last strategies that name it, or the
      defaults of the first strategies. */
  function Expected(epoch: seq<Strategies>, op: string): Setting
    requires epoch != []
  {
    var n := |epoch| - 1;
    match LastRate(epoch[n].perOperation, op)
    case Some(rate) => Setting(epoch[n].defaultLowerBound, Clamp(rate))
    case None => if n == 0 then Defaults(epoch) else Expected(epoch[..n], op)
  }

  function Defaults(epoch: seq<Strategies>): Setting
    requires epoch != []
  {
    Setting(epoch[0].defaultLowerBound, Clamp(epoch[0].defaultSamplingProbability))
  }

  ghost predicate Settled(a: Adaptive, epoch: seq<Strategies>)
    requires epoch != []
  {
    && EntriesSettled(a.samplers, epoch) && DefaultsSettled(a, epoch)
    && NamesSettled(a.samplers.Keys, epoch, a.maxOperations)
  }

  ghost predicate EntriesSettled(m: Samplers, epoch: seq<Strategies>)
    requires epoch != []
  {
    AllConsistent(m) && forall op <- m :: m[op].Told() == Expected(epoch, op)
  }

  ghost predicate DefaultsSettled(a: Adaptive, epoch: seq<Strategies>)
    requires epoch != []
  {
    a.default == NewProbabilistic(epoch[0].defaultSamplingProbability) && a.lowerBound == epoch[0].defaultLowerBound
  }

  /** Every operation named has a sampler, and at most `maxOperations` others do. */
  ghost predicate NamesSettled(operations: set<string>, epoch: seq<Strategies>, maxOperations: nat) {
    NamesIn(epoch) <= operations && |operations - NamesIn(epoch)| <= maxOperations
  }

  ghost predicate Follows(remote: Remote, epoch: seq<Strategies>) {
    && (remote.current.Adapting? <==> epoch != [])
    && (remote.current.Adapting? ==> Settled(remote.current.adaptive, epoch))
  }

  /** An adaptive sampler of the remotely controlled sampler's own making has its cap. */
  ghost predicate OwnCap(remote: Remote) {
    remote.current.Adapting? ==> remote.current.adaptive.maxOperations == AsSize(remote.maxOperations)
  }

  lemma {:induction false} UnnamedHasDefaults(epoch: seq<Strategies>, op: string)
    requires epoch != [] && op !in NamesIn(epoch)
    ensures Expected(epoch, op) == Defaults(epoch)
  {
    var n := |epoch| - 1;
    NamedHasRate(epoch[n].perOperation, op);
    if n > 0 {
      UnnamedHasDefaults(epoch[..n], op);
    }
  }

  lemma ExpectedAfter(epoch: seq<Strategies>, s: Strategies, op: string)
    ensures Expected(epoch + [s], op) == match LastRate(s.perOperation, op)
                                         case Some(rate) => Setting(s.defaultLowerBound, Clamp(rate))
                                         case None => if epoch == [] then Defaults([s]) else Expected(epoch, op)
    ensures NamesIn(epoch + [s]) == NamesIn(epoch) + Names(s.perOperation)
  {
    assert (epoch + [s])[..|epoch|] == epoch;
  }

  lemma NewIsSettled(s: Strategies, maxOperations: nat, now: real)
    ensures Settled(NewAdaptive(s, maxOperations, now), [s])
  {
    var a := NewAdaptive(s, maxOperations, now);
    ConstructionIsUpdate(s.defaultLowerBound, s.perOperation, now);
    UpdateKeepsConsistent(map[], s.defaultLowerBound, s.perOperation, now);
    assert [] + [s] == [s];
    ExpectedAfter([], s, "");
    assert a.samplers.Keys - NamesIn([s]) == {};
    forall op | op in a.samplers ensures a.samplers[op].Told() == Expected([s], op) {
      ExpectedAfter([], s, op);
      UpdateSettles(map[], s.defaultLowerBound, s.perOperation, now, op);
    }
  }

  lemma UpdateKeepsSettled(a: Adaptive, epoch: seq<Strategies>, s: Strategies, now: real)
    requires epoch != [] && Settled(a, epoch)
    ensures Settled(UpdatedAdaptive(a, s, now), epoch + [s])
  {
    var after := UpdatedAdaptive(a, s, now);
    UpdateKeepsConsistent(a.samplers, s.defaultLowerBound, s.perOperation, now);
    ExpectedAfter(epoch, s, "");
    Shrinks(after.samplers.Keys - NamesIn(epoch + [s]), a.samplers.Keys - NamesIn(epoch));
    forall op | op in after.samplers ensures after.samplers[op].Told() == Expected(epoch + [s], op) {
      ExpectedAfter(epoch, s, op);
      UpdateSettles(a.samplers, s.defaultLowerBound, s.perOperation, now, op);
    }
  }

  lemma {:induction false} Shrinks<T>(a: set<T>, b: set<T>)
    requires a <= b
    ensures |a| <= |b|
  {
    assert b == a + (b - a);
  }

  lemma PutKeepsEntries(m: Samplers, epoch: seq<Strategies>, op: string, g: Guaranteed)
    requires epoch != [] && EntriesSettled(m, epoch)
    requires g.Consistent() && g.Told() == Expected(epoch, op)
    ensures EntriesSettled(m[op := g], epoch)
  {
  }

  lemma RoomForOneMore(operations: set<string>, epoch: seq<Strategies>, maxOperations: nat, op: string)
    requires NamesSettled(operations, epoch, maxOperations) && |operations| < maxOperations
    ensures NamesSettled(operations + {op}, epoch, maxOperations)
  {
    Shrinks(operations + {op} - NamesIn(epoch), operations + {op});
  }

  lemma PutKeepsSettled(a: Adaptive, epoch: seq<Strategies>, op: string, g: Guaranteed)
    requires epoch != [] && Settled(a, epoch) && (op in a.samplers || |a.samplers| < a.maxOperations)
    requires g.Consistent() && g.Told() == Expected(epoch, op)
    ensures Settled(a.(samplers := a.samplers[op := g]), epoch)
  {
    PutKeepsEntries(a.samplers, epoch, op, g);
    assert a.samplers[op := g].Keys == a.samplers.Keys + {op};
    if op in a.samplers {
      assert a.samplers.Keys + {op} == a.samplers.Keys;
    } else {
      assert |a.samplers.Keys| == |a.samplers|;
      RoomForOneMore(a.samplers.Keys, epoch, a.maxOperations, op);
    }
  }

  /** A sampler made on demand has the defaults, as its operation has not been named. */
  lemma OnDemandHasDefaults(a: Adaptive, epoch: seq<Strategies>, op: string, now: real)
    requires epoch != [] && DefaultsSettled(a, epoch) && op !in NamesIn(epoch)
    ensures NewGuaranteed(a.lowerBound, a.default.samplingRate, now).Told() == Expected(epoch, op)
  {
    UnnamedHasDefaults(epoch, op);
  }

  lemma AskKeepsSettled(a: Adaptive, epoch: seq<Strategies>, operation: string, now: real)
    requires epoch != [] && Settled(a, epoch)
    ensures Settled(AdaptiveDecided(a, operation, now), epoch)
  {
    match Responsible(a, operation, now)
    case Some(g) =>
      if operation !in a.samplers {
        OnDemandHasDefaults(a, epoch, operation, now);
      }
      PutKeepsSettled(a, epoch, operation, Decided(g, now));
    case None =>
  }

  lemma StepFollows(remote: Remote, epoch: seq<Strategies>, e: Event)
    requires Follows(remote, epoch)
    ensures Follows(Apply(remote, e), EpochAfter(epoch, e))
  {
    match e
    case Ask(operation, now) => AskFollows(remote, epoch, operation, now);
    case Poll(response, now) => PollFollows(remote, epoch, response, now);
  }

  lemma AskFollows(remote: Remote, epoch: seq<Strategies>, operation: string, now: real)
    requires Follows(remote, epoch)
    ensures Follows(Asked(remote, operation, now), epoch)
  {
    if remote.current.Adapting? {
      AskKeepsSettled(remote.current.adaptive, epoch, operation, now);
    }
  }

  lemma PollFollows(remote: Remote, epoch: seq<Strategies>, response: Response, now: real)
    requires Follows(remote, epoch)
    ensures Follows(Polled(remote, response, now), EpochAfter(epoch, Poll(response, now)))
  {
    if response.Response? && response.operationSampling.Some? {
      StrategiesSettle(remote, epoch, response.operationSampling.value, now);
    }
  }

  lemma StrategiesSettle(remote: Remote, epoch: seq<Strategies>, s: Strategies, now: real)
    requires Follows(remote, epoch)
    ensures var after := AdaptiveFrom(remote.current, s, remote.maxOperations, now);
            Settled(after, epoch + [s])
  {
    if remote.current.Adapting? {
      UpdateKeepsSettled(remote.current.adaptive, epoch, s, now);
    } else {
      assert epoch + [s] == [s];
      NewIsSettled(s, AsSize(remote.maxOperations), now);
    }
  }

  lemma {:induction false} RunFollowsFrom(remote: Remote, first: seq<Strategies>, events: seq<Event>)
    requires Follows(remote, first)
    ensures Follows(Run(remote, events), Epoch(first, events))
    ensures Run(remote, events).maxOperations == remote.maxOperations
  {
    if events != [] {
      var n := |events| - 1;
      RunFollowsFrom(remote, first, events[..n]);
      StepFollows(Run(remote, events[..n]), Epoch(first, events[..n]), events[n]);
    }
  }

  lemma {:induction false} RunKeepsOwnCap(remote: Remote, events: seq<Event>)
    requires OwnCap(remote)
    ensures OwnCap(Run(remote, events))
  {
    if events != [] {
      RunKeepsOwnCap(remote, events[..|events| - 1]);
    }
  }

  /** In every run from a sampler that is not adaptive: every operation with a sampler has the lower
      bound and the clamped rate of the last strategies that named it since the sampler became
      adaptive, or else its first defaults; every operation named has a sampler, and at most
      `maxOperations` others do. */
  lemma RunFollows(given: Current, maxOperations: int32, events: seq<Event>)
    requires !given.Adapting?
    ensures Follows(Run(Start(given, maxOperations), events), Epoch([], events))
    ensures OwnCap(Run(Start(given, maxOperations), events))
    ensures Run(Start(given, maxOperations), events).maxOperations == maxOperations
  {
    RunFollowsFrom(Start(given, maxOperations), [], events);
    RunKeepsOwnCap(Start(given, maxOperations), events);
  }

  /** The same from a sampler that is adaptive, whose own strategies come first. */
  lemma RunFollowsGivenAdaptive(s: Strategies, cap: nat, made: real, maxOperations: int32, events: seq<Event>)
    ensures var given := Adapting(NewAdaptive(s, cap, made));
            Follows(Run(Start(given, maxOperations), events), Epoch([s], events))
  {
    NewIsSettled(s, cap, made);
    RunFollowsFrom(Start(Adapting(NewAdaptive(s, cap, made)), maxOperations), [s], events);
  }

  /** With a negative setting, no number of operations that fits a machine is refused a sampler. */
  lemma NegativeSettingIsNoCap(a: Adaptive, maxOperations: int32, operation: string, now: real)
    requires maxOperations < 0 && a.maxOperations == AsSize(maxOperations)
    requires |a.samplers| < 0x8000_0000_0000_0000
    ensures operation in AdaptiveDecided(a, operation, now).samplers
  {
  }

  function Polls(events: seq<Event>): nat {
    if events == [] then 0
    else Polls(events[..|events| - 1]) + if events[|events| - 1].Poll? then 1 else 0
  }

  /** In every run, each poll is counted as failed or retrieved, and each one retrieved as an
      update or as a failed update. */
  lemma {:induction false} PollsAreCounted(given: Current, maxOperations: int32, events: seq<Event>)
    ensures var m := Run(Start(given, maxOperations), events).metrics;
            m.retrieved == m.updated + m.updateFailure && Polls(events) == m.retrieved + m.queryFailure
  {
    if events != [] {
      PollsAreCounted(given, maxOperations, events[..|events| - 1]);
    }
  }

  /** A poll that counts no update leaves the sampler as it was. */
  lemma FailedPollChangesNothing(remote: Remote, response: Response, now: real)
    ensures Polled(remote, response, now).metrics.updated == remote.metrics.updated ==>
              Polled(remote, response, now).current == remote.current
  {
  }

  /** The last response that was followed, if any. */
  function LastFollowed(events: seq<Event>): Response {
    if events == [] then QueryFailed
    else
      var n := |events| - 1;
      var follows := events[n].Poll? && events[n].response.Response? && !Unsupported(events[n].response);
      if follows then events[n].response else LastFollowed(events[..n])
  }

  /** In every run, the kind of sampler and its rate or limit are those of the last response followed;
      per-operation strategies come before a rate, and a rate before a limit. */
  lemma {:induction false} LastResponseRules(given: Current, maxOperations: int32, events: seq<Event>)
    ensures var current, last := Run(Start(given, maxOperations), events).current, LastFollowed(events);
            last.Response? ==>
              && !Unsupported(last)
              && (current.Adapting? <==> last.operationSampling.Some?)
              && (last.operationSampling.None? && last.probabilistic.Some? ==>
                    && current.ByRateOnly? && current.probabilistic.samplingRate == Clamp(last.probabilistic.value)
                    && current.probabilistic == NewProbabilistic(last.probabilistic.value))
              && (last.operationSampling.None? && last.probabilistic.None? ==>
                    && current.ByLimit? && current.limiter.creditsPerSecond == last.rateLimiting.value
                    && current.limiter.maxBalance == Max(last.rateLimiting.value, 1.0))
  {
    if events != [] {
      LastResponseRules(given, maxOperations, events[..|events| - 1]);
    }
  }

  /** A limiter put in place by a poll is full. */
  lemma NewLimitIsFull(remote: Remote, limit: real, now: real)
    ensures var current := Polled(remote, Response(None, None, Some(limit)), now).current;
            current.ByLimit? && current.limiter.balance == current.limiter.maxBalance && current.limiter.lastTick == now
  {
  }

  // Decisions between polls.

  function AskTimes(events: seq<Event>): (times: seq<real>)
    ensures |times| == |events|
  {
    seq(|events|, i requires 0 <= i < |events| => events[i].now)
  }

  /** The calls of an adaptive sampler; what becomes of it does not depend on the trace IDs. */
  function AskCalls(events: seq<Event>): (calls: seq<Call>)
    ensures |calls| == |events|
  {
    seq(|events|, i requires 0 <= i < |events| =>
      Call(if events[i].Ask? then events[i].operation else "", Request(NO_TRACE, events[i].now)))
  }

  /** Between polls, a rate limit spends its credit and an adaptive sampler that of its operations; any
      other sampler stays as it is. */
  lemma {:induction false} AsksSpendCredit(remote: Remote, events: seq<Event>)
    requires forall i | 0 <= i < |events| :: events[i].Ask?
    ensures Run(remote, events).current ==
            match remote.current
            case ByLimit(l) => ByLimit(After(l, AskTimes(events)))
            case Adapting(a) => Adapting(AdaptiveAfter(a, AskCalls(events)))
            case current => current
  {
    if events != [] {
      var n := |events| - 1;
      AsksSpendCredit(remote, events[..n]);
      assert AskTimes(events)[..n] == AskTimes(events[..n]);
      assert AskCalls(events)[..n] == AskCalls(events[..n]);
    }
  }

  /** A poll that replaces the sampler by one that is not adaptive. */
  ghost predicate Replaces(e: Event) {
    e.Poll? && e.response.Response? && e.response.operationSampling.None? && !Unsupported(e.response)
  }

  function Operations(current: Current): set<string> {
    if current.Adapting? then current.adaptive.samplers.Keys else {}
  }

  /** As long as no poll replaces the adaptive sampler, no operation loses its sampler. */
  lemma {:induction false} EntriesNeverVanish(remote: Remote, events: seq<Event>)
    requires remote.current.Adapting? && AllConsistent(remote.current.adaptive.samplers)
    requires forall k | 0 <= k < |events| :: !Replaces(events[k])
    ensures var after := Run(remote, events).current;
            && after.Adapting? && AllConsistent(after.adaptive.samplers)
            && Operations(remote.current) <= Operations(after)
  {
    if events != [] {
      var n := |events| - 1;
      EntriesNeverVanish(remote, events[..n]);
      var mid := Run(remote, events[..n]).current.adaptive;
      var e := events[n];
      assert !Replaces(e);
      if e.Ask? {
        CapBindsDecisions(mid, e.operation, e.now);
      } else if e.response.Response? && e.response.operationSampling.Some? {
        var s := e.response.operationSampling.value;
        UpdateKeepsConsistent(mid.samplers, s.defaultLowerBound, s.perOperation, e.now);
      }
    }
  }
}
