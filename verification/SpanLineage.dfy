/**
 Families of spans: what holds of every span a tracer has started, whatever it is started
 from and whatever its baggage and sampling priority are set to afterwards.
 */
module SpanLineage {
  import opened Options
  import opened SpanContexts
  import opened Tracing

  /** A span of this tracer, by number, or a context from elsewhere. */
  datatype Target = Local(span: nat) | Foreign(ctx: Option<SpanContext>)

  datatype Link = Link(kind: Kind, target: Target)

  datatype Event =
    | Start(links: seq<Link>, draws: Draws, sampler: TraceID -> bool)
    | SetBaggage(span: nat, baggage: map<string, string>)
    | SetPriority(span: nat, priority: bool)

  datatype Origin =
    | Opened(container: Option<SpanContext>)
    | Adopted(self: SpanContext)
    | Joined(parent: SpanContext, local: Option<nat>)

  /** A span's context when it was started and now, where it came from, and the random numbers
      drawn for it. */
  datatype Span = Span(start: SpanContext, now: SpanContext, origin: Origin, draws: Draws)

  datatype World = World(gen128: bool, spans: seq<Span>, metrics: Metrics)

  function Resolve(spans: seq<Span>, links: seq<Link>): (refs: seq<Reference>)
    ensures |refs| == |links|
    ensures forall i | 0 <= i < |refs| :: refs[i].kind == links[i].kind
  {
    seq(|links|, i requires 0 <= i < |links| =>
      Reference(links[i].kind, match links[i].target
                               case Local(j) => if j < |spans| then Some(spans[j].now) else None
                               case Foreign(ctx) => ctx))
  }

  /** What the span is started from. */
  function OriginOf(spans: seq<Span>, links: seq<Link>): Origin {
    var refs := Resolve(spans, links);
    var a := Analyze(refs);
    var parent, self := At(refs, a.parent), At(refs, a.self);
    if parent.Some? && parent.value.IsValid() then
      Joined(parent.value,
             if a.parent.Some? && a.parent.value < |links| && links[a.parent.value].target.Local?
             then Some(links[a.parent.value].target.span) else None)
    else if self.Some? then Adopted(self.value)
    else Opened(parent)
  }

  /** setSamplingPriority, which drops the trace state. */
  function WithPriority(ctx: SpanContext, priority: bool): SpanContext {
    (if priority then ctx.Debugged() else ctx.(flags := ctx.flags - ctx.flags % 2)).(traceState := "")
  }

  function Apply(w: World, e: Event): World {
    match e
    case Start(links, draws, sampler) =>
      var started := StartSpan(w.gen128, Resolve(w.spans, links), draws, sampler);
      if started.Refused? then w
      else
        w.(spans := w.spans + [Span(started.ctx, started.ctx, OriginOf(w.spans, links), draws)],
           metrics := CountStart(w.metrics, started.ctx.IsSampled(), started.newTrace))
    case SetBaggage(i, baggage) =>
      if i < |w.spans| then w.(spans := w.spans[i := Changed(w.spans[i], w.spans[i].now.(baggage := baggage))]) else w
    case SetPriority(i, priority) =>
      if i < |w.spans| then
        w.(spans := w.spans[i := Changed(w.spans[i], WithPriority(w.spans[i].now, priority))])
      else w
  }

  function Changed(span: Span, now: SpanContext): Span {
    span.(now := now)
  }

  function Run(w: World, events: seq<Event>): World {
    if events == [] then w
    else Apply(Run(w, events[..|events| - 1]), events[|events| - 1])
  }

  function Initial(gen128: bool): World {
    World(gen128, [], NO_METRICS)
  }

  // ---- Lineage ----

  ghost predicate SameIdentity(a: SpanContext, b: SpanContext) {
    && a.traceID == b.traceID && a.spanID == b.spanID && a.parentID == b.parentID
    && a.debugID == b.debugID == "" && a.traceState == b.traceState == ""
  }

  /** What a new span takes from where it came from. */
  ghost predicate Descends(gen128: bool, start: SpanContext, origin: Origin) {
    match origin
    case Opened(container) =>
      && start.IsValid() && start.spanID == start.traceID.low && start.parentID == 0
      && (start.traceID.high != 0 <==> gen128)
      && start.baggage == (if container.Some? then container.value.baggage else map[])
      && (container.Some? && container.value.IsDebugIDContainerOnly() ==> start.flags == SAMPLED_FLAG + DEBUG_FLAG)
    case Adopted(self) =>
      && start.traceID == self.traceID && start.spanID == self.spanID && start.parentID == 0
      && start.baggage == map[]
    case Joined(parent, _) =>
      && parent.IsValid() && start.IsValid()
      && start.traceID == parent.traceID && start.parentID == parent.spanID
      && start.flags == parent.flags && start.baggage == parent.baggage
  }

  /** A local parent was started earlier and still has the IDs the child took. */
  ghost predicate LocalParent(spans: seq<Span>, i: nat)
    requires i < |spans|
  {
    spans[i].origin.Joined? && spans[i].origin.local.Some? ==>
      var parent, j := spans[i].origin.parent, spans[i].origin.local.value;
      j < i && spans[j].now.traceID == parent.traceID && spans[j].now.spanID == parent.spanID
  }

  /** The IDs that are not taken over are those drawn. */
  ghost predicate Drawn(gen128: bool, start: SpanContext, origin: Origin, draws: Draws) {
    match origin
    case Opened(_) => start.traceID == TraceID(if gen128 then draws.high else 0, draws.low) && start.spanID == draws.low
    case Adopted(_) => true
    case Joined(_, _) => start.spanID == draws.low
  }

  ghost predicate Lineage(gen128: bool, spans: seq<Span>, i: nat)
    requires i < |spans|
  {
    && SameIdentity(spans[i].start, spans[i].now)
    && Descends(gen128, spans[i].start, spans[i].origin)
    && Drawn(gen128, spans[i].start, spans[i].origin, spans[i].draws)
    && LocalParent(spans, i)
  }

  ghost predicate Inv(w: World) {
    && (forall i | 0 <= i < |w.spans| :: Lineage(w.gen128, w.spans, i))
    && w.metrics == Tally(w.spans)
  }

  /** The counters as a sum over the spans. */
  function Tally(spans: seq<Span>): Metrics {
    if spans == [] then NO_METRICS
    else
      var n := |spans| - 1;
      CountStart(Tally(spans[..n]), spans[n].start.IsSampled(), !spans[n].origin.Joined?)
  }

  lemma {:induction false} StartDescends(w: World, links: seq<Link>, draws: Draws, sampler: TraceID -> bool)
    ensures var started := StartSpan(w.gen128, Resolve(w.spans, links), draws, sampler);
            var origin := OriginOf(w.spans, links);
            started.Started? ==>
              && Descends(w.gen128, started.ctx, origin) && Drawn(w.gen128, started.ctx, origin, draws)
              && started.ctx.debugID == "" == started.ctx.traceState
              && (started.newTrace <==> !origin.Joined?)
              && (started.newTrace
                  && !(origin.Opened? && origin.container.Some? && origin.container.value.IsDebugIDContainerOnly()) ==>
                    started.ctx.flags == if sampler(started.ctx.traceID) then SAMPLED_FLAG else 0)
              && (origin.Adopted? ==> exists i :: 0 <= i < |links| && links[i].kind == SelfRef)
              && (origin.Joined? && origin.local.Some? ==>
                    origin.local.value < |w.spans| && w.spans[origin.local.value].now == origin.parent)
  {
    var refs := Resolve(w.spans, links);
    AnalysisMeansIt(refs, Analyze(refs));
    RelativesGrow(refs);
  }

  predicate DebugContainer(container: Option<SpanContext>) {
    container.Some? && container.value.traceID == NO_TRACE && container.value.debugID != ""
  }

  /** Who decides on sampling, and the tags that say so: the parent of a joined span, a debug ID, and
      otherwise the sampler, asked about the new span's trace ID. */
  lemma {:induction false} SamplingIsDecided(w: World, links: seq<Link>, draws: Draws, sampler: TraceID -> bool)
    ensures var started := StartSpan(w.gen128, Resolve(w.spans, links), draws, sampler);
            var origin := OriginOf(w.spans, links);
            started.Started? ==>
              && (origin.Joined? ==> started.ctx.IsSampled() == origin.parent.IsSampled() && started.tags == NoTags)
              && (origin.Opened? && DebugContainer(origin.container) ==>
                    started.ctx.IsSampled() && started.tags == DebugTag(origin.container.value.debugID))
              && (!origin.Joined? && !(origin.Opened? && DebugContainer(origin.container)) ==>
                    && started.ctx.IsSampled() == sampler(started.ctx.traceID)
                    && started.tags == if sampler(started.ctx.traceID) then SamplerTags else NoTags)
              && started.references == Relatives(Resolve(w.spans, links))
  {
    var refs := Resolve(w.spans, links);
    AnalysisMeansIt(refs, Analyze(refs));
    RelativesGrow(refs);
  }

  /** A priority sets both flag bits, or clears the sampling bit, and leaves the others. */
  lemma PriorityBits(ctx: SpanContext, priority: bool)
    ensures var after := WithPriority(ctx, priority);
            && after.IsSampled() == priority
            && (after.flags / 2 % 2 == 1 <==> priority || ctx.flags / 2 % 2 == 1)
            && after.flags / 4 == ctx.flags / 4
            && after.(flags := ctx.flags, traceState := ctx.traceState) == ctx && after.traceState == ""
  {
  }

  lemma {:induction false} TallyOfChange(spans: seq<Span>, i: nat, now: SpanContext)
    requires i < |spans|
    ensures Tally(spans[i := Changed(spans[i], now)]) == Tally(spans)
  {
    var n := |spans| - 1;
    var after := spans[i := Changed(spans[i], now)];
    if i < n {
      TallyOfChange(spans[..n], i, now);
      assert after[..n] == spans[..n][i := Changed(spans[i], now)];
    } else {
      assert after[..n] == spans[..n];
    }
  }

  lemma ChangeKeepsInv(w: World, i: nat, now: SpanContext)
    requires Inv(w) && i < |w.spans| && SameIdentity(w.spans[i].now, now)
    ensures Inv(w.(spans := w.spans[i := Changed(w.spans[i], now)]))
  {
    TallyOfChange(w.spans, i, now);
    var after := w.spans[i := Changed(w.spans[i], now)];
    forall k | 0 <= k < |after| ensures Lineage(w.gen128, after, k) {
      assert Lineage(w.gen128, w.spans, k);
    }
  }

  lemma StartKeepsInv(w: World, links: seq<Link>, draws: Draws, sampler: TraceID -> bool)
    requires Inv(w)
    ensures Inv(Apply(w, Start(links, draws, sampler)))
  {
    StartDescends(w, links, draws, sampler);
    var after := Apply(w, Start(links, draws, sampler)).spans;
    if |after| > |w.spans| {
      assert after[..|w.spans|] == w.spans;
      forall k | 0 <= k < |w.spans| ensures Lineage(w.gen128, after, k) {
        assert Lineage(w.gen128, w.spans, k);
      }
    }
  }

  lemma StepKeepsInv(w: World, e: Event)
    requires Inv(w)
    ensures Inv(Apply(w, e))
  {
    match e
    case Start(links, draws, sampler) => StartKeepsInv(w, links, draws, sampler);
    case SetBaggage(i, baggage) =>
      if i < |w.spans| {
        assert Lineage(w.gen128, w.spans, i);
        ChangeKeepsInv(w, i, w.spans[i].now.(baggage := baggage));
      }
    case SetPriority(i, priority) =>
      if i < |w.spans| {
        assert Lineage(w.gen128, w.spans, i);
        ChangeKeepsInv(w, i, WithPriority(w.spans[i].now, priority));
      }
  }

  /** Every span of every run has its lineage, and the counters are the sums over the spans. */
  lemma {:induction false} RunKeepsInv(gen128: bool, events: seq<Event>)
    ensures Inv(Run(Initial(gen128), events)) && Run(Initial(gen128), events).gen128 == gen128
  {
    if events != [] {
      RunKeepsInv(gen128, events[..|events| - 1]);
      StepKeepsInv(Run(Initial(gen128), events[..|events| - 1]), events[|events| - 1]);
    }
  }

  // ---- Guarantees ----

  /** The span that a family of local spans goes back to. */
  function Top(spans: seq<Span>, i: nat): (top: nat)
    requires i < |spans|
    ensures top <= i
    decreases i
  {
    var origin := spans[i].origin;
    if origin.Joined? && origin.local.Some? && origin.local.value < i then Top(spans, origin.local.value) else i
  }

  lemma {:induction false} FamilySharesTrace(w: World, i: nat)
    requires Inv(w) && i < |w.spans|
    ensures var top := w.spans[Top(w.spans, i)];
            && w.spans[i].now.traceID == top.now.traceID
            && !(top.origin.Joined? && top.origin.local.Some?)
    decreases i
  {
    assert Lineage(w.gen128, w.spans, i);
    if Top(w.spans, i) != i {
      FamilySharesTrace(w, w.spans[i].origin.local.value);
    }
  }

  /** In every run, all spans of a family carry one trace ID, that of a span without a local
      parent. */
  lemma OneTracePerFamily(gen128: bool, events: seq<Event>, i: nat)
    requires i < |Run(Initial(gen128), events).spans|
    ensures var spans := Run(Initial(gen128), events).spans;
            && spans[i].now.traceID == spans[Top(spans, i)].now.traceID
            && !(spans[Top(spans, i)].origin.Joined? && spans[Top(spans, i)].origin.local.Some?)
  {
    RunKeepsInv(gen128, events);
    FamilySharesTrace(Run(Initial(gen128), events), i);
  }

  /** In every run, a span's context is invalid only if it was adopted from an invalid self
      reference. */
  lemma {:induction false} ValidUnlessAdopted(gen128: bool, events: seq<Event>, i: nat)
    requires i < |Run(Initial(gen128), events).spans|
    ensures var span := Run(Initial(gen128), events).spans[i];
            span.now.IsValid() <==> (span.origin.Adopted? ==> span.origin.self.IsValid())
  {
    RunKeepsInv(gen128, events);
    assert Lineage(gen128, Run(Initial(gen128), events).spans, i);
  }

  ghost predicate NamesSelf(e: Event) {
    e.Start? && exists k :: 0 <= k < |e.links| && e.links[k].kind == SelfRef
  }

  ghost predicate NoneAdopted(spans: seq<Span>) {
    forall i | 0 <= i < |spans| :: !spans[i].origin.Adopted?
  }

  lemma StepKeepsNoneAdopted(w: World, e: Event)
    requires NoneAdopted(w.spans) && !NamesSelf(e)
    ensures NoneAdopted(Apply(w, e).spans)
  {
    if e.Start? {
      StartDescends(w, e.links, e.draws, e.sampler);
    }
  }

  lemma {:induction false} RunKeepsNoneAdopted(gen128: bool, events: seq<Event>)
    requires forall k | 0 <= k < |events| :: !NamesSelf(events[k])
    ensures NoneAdopted(Run(Initial(gen128), events).spans)
  {
    if events != [] {
      var n := |events| - 1;
      RunKeepsNoneAdopted(gen128, events[..n]);
      StepKeepsNoneAdopted(Run(Initial(gen128), events[..n]), events[n]);
    }
  }

  /** Without self references, every context of every run is valid. */
  lemma {:induction false} AllValidWithoutSelf(gen128: bool, events: seq<Event>, i: nat)
    requires forall k | 0 <= k < |events| :: !NamesSelf(events[k])
    requires i < |Run(Initial(gen128), events).spans|
    ensures Run(Initial(gen128), events).spans[i].now.IsValid()
  {
    RunKeepsNoneAdopted(gen128, events);
    ValidUnlessAdopted(gen128, events, i);
  }

  /** A self reference to a context that holds no IDs starts a span without IDs. */
  lemma AdoptedWithoutIDs(gen128: bool, draws: Draws, sampler: TraceID -> bool)
    ensures var container := EMPTY_CONTEXT.(debugID := "id");
            var started := StartSpan(gen128, [Reference(SelfRef, Some(container))], draws, sampler);
            started.Started? && !started.ctx.IsValid() && started.newTrace
  {
    var refs := [Reference(SelfRef, Some(EMPTY_CONTEXT.(debugID := "id")))];
    assert refs[0].Self();
    AnalysisMeansIt(refs, Analyze(refs));
    RelativesGrow(refs);
  }

  function Openers(spans: seq<Span>): nat {
    if spans == [] then 0
    else
      var n := |spans| - 1;
      Openers(spans[..n]) + if spans[n].origin.Joined? then 0 else 1
  }

  lemma {:induction false} TallyAdds(spans: seq<Span>)
    ensures var m := Tally(spans);
            && m.spansStarted == |spans| == m.spansSampled + m.spansNotSampled
            && m.tracesStartedSampled + m.tracesStartedNotSampled == Openers(spans)
  {
    if spans != [] {
      TallyAdds(spans[..|spans| - 1]);
    }
  }

  /** In every run, the span counters split the spans started, and the trace counters the spans
      that opened a trace. */
  lemma CountersAddUp(gen128: bool, events: seq<Event>)
    ensures var w := Run(Initial(gen128), events);
            && w.metrics.spansStarted == |w.spans| == w.metrics.spansSampled + w.metrics.spansNotSampled
            && w.metrics.tracesStartedSampled + w.metrics.tracesStartedNotSampled == Openers(w.spans)
  {
    RunKeepsInv(gen128, events);
    TallyAdds(Run(Initial(gen128), events).spans);
  }

  /** How many spans were started sampled or not; of those that opened a trace, if `openers`. */
  function CountStarts(spans: seq<Span>, sampled: bool, openers: bool): nat {
    if spans == [] then 0
    else
      var n := |spans| - 1;
      var counts := spans[n].start.IsSampled() == sampled && (openers ==> !spans[n].origin.Joined?);
      CountStarts(spans[..n], sampled, openers) + if counts then 1 else 0
  }

  lemma {:induction false} TallyCounts(spans: seq<Span>)
    ensures var m := Tally(spans);
            && m.spansSampled == CountStarts(spans, true, false)
            && m.spansNotSampled == CountStarts(spans, false, false)
            && m.tracesStartedSampled == CountStarts(spans, true, true)
            && m.tracesStartedNotSampled == CountStarts(spans, false, true)
  {
    if spans != [] {
      TallyCounts(spans[..|spans| - 1]);
    }
  }

  /** In every run each counter is the number of spans it is named after. */
  lemma CountersCount(gen128: bool, events: seq<Event>)
    ensures var w := Run(Initial(gen128), events);
            && w.metrics.spansSampled == CountStarts(w.spans, true, false)
            && w.metrics.spansNotSampled == CountStarts(w.spans, false, false)
            && w.metrics.tracesStartedSampled == CountStarts(w.spans, true, true)
            && w.metrics.tracesStartedNotSampled == CountStarts(w.spans, false, true)
  {
    RunKeepsInv(gen128, events);
    TallyCounts(Run(Initial(gen128), events).spans);
  }

  // ---- Different numbers, different spans ----

  ghost predicate DrawnIn(events: seq<Event>, low: ID) {
    exists k :: 0 <= k < |events| && events[k].Start? && events[k].draws.low == low
  }

  ghost predicate DifferentDraws(events: seq<Event>) {
    forall i, j | 0 <= i < j < |events| && events[i].Start? && events[j].Start? ::
      events[i].draws.low != events[j].draws.low
  }

  ghost predicate DifferentSpans(spans: seq<Span>) {
    forall i, j | 0 <= i < j < |spans| :: spans[i].draws.low != spans[j].draws.low
  }

  lemma {:induction false} SpansAreDrawn(gen128: bool, events: seq<Event>, i: nat)
    requires i < |Run(Initial(gen128), events).spans|
    ensures DrawnIn(events, Run(Initial(gen128), events).spans[i].draws.low)
  {
    if events != [] {
      var n := |events| - 1;
      var before := Run(Initial(gen128), events[..n]);
      if i < |before.spans| {
        SpansAreDrawn(gen128, events[..n], i);
        var k :| 0 <= k < n && events[..n][k].Start? && events[..n][k].draws.low == before.spans[i].draws.low;
        assert events[k].draws.low == before.spans[i].draws.low;
      } else {
        assert events[n].Start?;
      }
    }
  }

  lemma {:induction false} DrawsStayDifferent(gen128: bool, events: seq<Event>)
    requires DifferentDraws(events)
    ensures DifferentSpans(Run(Initial(gen128), events).spans)
  {
    if events != [] {
      var n := |events| - 1;
      var before := Run(Initial(gen128), events[..n]);
      DrawsStayDifferent(gen128, events[..n]);
      forall i | 0 <= i < |before.spans| && events[n].Start?
        ensures before.spans[i].draws.low != events[n].draws.low
      {
        SpansAreDrawn(gen128, events[..n], i);
      }
    }
  }

  /** In every run with pairwise different random numbers, no two spans have the same span ID, but for
      those that took theirs from a self reference. */
  lemma SpanIDsAreUnique(gen128: bool, events: seq<Event>, i: nat, j: nat)
    requires DifferentDraws(events) && i < j < |Run(Initial(gen128), events).spans|
    ensures var spans := Run(Initial(gen128), events).spans;
            spans[i].now.spanID == spans[j].now.spanID ==> spans[i].origin.Adopted? || spans[j].origin.Adopted?
  {
    RunKeepsInv(gen128, events);
    DrawsStayDifferent(gen128, events);
    var w := Run(Initial(gen128), events);
    assert Lineage(w.gen128, w.spans, i) && Lineage(w.gen128, w.spans, j);
  }

  // ---- Sampling within a family ----

  ghost predicate SteadySpan(spans: seq<Span>, i: nat)
    requires i < |spans|
  {
    && spans[i].now.flags == spans[i].start.flags
    && (spans[i].origin.Joined? && spans[i].origin.local.Some? ==>
          spans[i].origin.local.value < i && spans[spans[i].origin.local.value].now.flags == spans[i].now.flags)
  }

  ghost predicate Steady(spans: seq<Span>) {
    forall i | 0 <= i < |spans| :: SteadySpan(spans, i)
  }

  lemma StepKeepsSteady(w: World, e: Event)
    requires Steady(w.spans) && !e.SetPriority?
    ensures Steady(Apply(w, e).spans)
  {
    var after := Apply(w, e).spans;
    if e.Start? {
      StartDescends(w, e.links, e.draws, e.sampler);
    }
    forall i | 0 <= i < |after| ensures SteadySpan(after, i) {
      if i < |w.spans| {
        assert SteadySpan(w.spans, i);
      }
    }
  }

  lemma {:induction false} RunKeepsSteady(gen128: bool, events: seq<Event>)
    requires forall k | 0 <= k < |events| :: !events[k].SetPriority?
    ensures Steady(Run(Initial(gen128), events).spans)
  {
    if events != [] {
      var n := |events| - 1;
      RunKeepsSteady(gen128, events[..n]);
      StepKeepsSteady(Run(Initial(gen128), events[..n]), events[n]);
    }
  }

  lemma {:induction false} SteadyFamily(spans: seq<Span>, i: nat)
    requires Steady(spans) && i < |spans|
    ensures spans[i].now.flags == spans[Top(spans, i)].start.flags
    decreases i
  {
    assert SteadySpan(spans, i);
    if Top(spans, i) != i {
      SteadyFamily(spans, spans[i].origin.local.value);
    }
  }

  /** The sampling decision is taken once: as long as no priority is set, every span of a family
      keeps the flags its topmost span was started with. */
  lemma {:induction false} FamilySampledAlike(gen128: bool, events: seq<Event>, i: nat)
    requires forall k | 0 <= k < |events| :: !events[k].SetPriority?
    requires i < |Run(Initial(gen128), events).spans|
    ensures var spans := Run(Initial(gen128), events).spans;
            spans[i].now.flags == spans[Top(spans, i)].start.flags
  {
    RunKeepsSteady(gen128, events);
    SteadyFamily(Run(Initial(gen128), events).spans, i);
  }
}
