/**
 Starting spans: which reference becomes the parent, what context the new span gets, and what
 that means for whole families of spans.
 */
module Tracing {
  import opened HexParsing
  import opened Options
  import opened SpanContexts


  /** Any kind but ChildOf and SelfRef is treated like FollowsFrom. */
  datatype Kind = ChildOf | FollowsFrom | SelfRef

  /** A reference; its context is None when it belongs to another tracing library. */
  datatype Reference = Reference(kind: Kind, ctx: Option<SpanContext>) {
    predicate Usable() {
      ctx.Some? && (ctx.value.IsValid() || ctx.value.IsDebugIDContainerOnly() || ctx.value.baggage != map[])
    }

    predicate Related() {
      Usable() && kind != SelfRef
    }

    predicate Self() {
      Usable() && kind == SelfRef
    }

    predicate Child() {
      Usable() && kind == ChildOf
    }
  }

  // ---- Reference analysis ----

  /** Pointers into the list of references, and the references the span keeps. */
  datatype Analyzed = Analyzed(parent: Option<nat>, self: Option<nat>, references: seq<Reference>)

  function Relatives(refs: seq<Reference>): seq<Reference> {
    if refs == [] then []
    else
      var n := |refs| - 1;
      Relatives(refs[..n]) + if refs[n].Related() then [refs[n]] else []
  }

  ghost predicate FirstChild(refs: seq<Reference>, i: nat) {
    i < |refs| && refs[i].Child() && forall j | 0 <= j < i :: !refs[j].Child()
  }

  ghost predicate LastRelated(refs: seq<Reference>, i: nat) {
    i < |refs| && refs[i].Related() && forall j | i < j < |refs| :: !refs[j].Related()
  }

  ghost predicate LastSelf(refs: seq<Reference>, i: nat) {
    i < |refs| && refs[i].Self() && forall j | i < j < |refs| :: !refs[j].Self()
  }

  /** The parent is the first usable ChildOf; without one, it is the last usable reference if
      that is valid. */
  ghost predicate IsParent(refs: seq<Reference>, i: nat) {
    if exists j | 0 <= j < |refs| :: refs[j].Child() then FirstChild(refs, i)
    else LastRelated(refs, i) && refs[i].ctx.value.IsValid()
  }

  /** What the analysis promises. */
  ghost predicate Means(refs: seq<Reference>, a: Analyzed) {
    && (match a.parent case Some(i) => IsParent(refs, i) case None => forall i: nat :: !IsParent(refs, i))
    && (match a.self case Some(i) => LastSelf(refs, i) case None => forall i | 0 <= i < |refs| :: !refs[i].Self())
    && a.references == Relatives(refs)
  }

  /** A usable reference that is not the span itself is kept, behind those kept before it. */
  lemma {:induction false} RelativesKeepOrder(refs: seq<Reference>, i: nat)
    requires i < |refs| && refs[i].Related()
    ensures var k := |Relatives(refs[..i])|; k < |Relatives(refs)| && Relatives(refs)[k] == refs[i]
    ensures |Relatives(refs)| <= |refs|
  {
    var n := |refs| - 1;
    if i < n {
      RelativesKeepOrder(refs[..n], i);
      assert refs[..n][..i] == refs[..i];
    } else {
      RelativesGrow(refs[..n]);
    }
  }

  lemma {:induction false} RelativesGrow(refs: seq<Reference>)
    ensures |Relatives(refs)| <= |refs|
    ensures Relatives(refs) == [] <==> forall j | 0 <= j < |refs| :: !refs[j].Related()
  {
    if refs != [] {
      RelativesGrow(refs[..|refs| - 1]);
    }
  }

  // The first and the last of the references of a kind.

  function FindChild(refs: seq<Reference>): (found: Option<nat>)
    ensures match found case Some(i) => FirstChild(refs, i) case None => forall j | 0 <= j < |refs| :: !refs[j].Child()
  {
    if refs == [] then None
    else
      var n := |refs| - 1;
      var earlier := FindChild(refs[..n]);
      if earlier.Some? then earlier else if refs[n].Child() then Some(n) else None
  }

  function FindRelated(refs: seq<Reference>): (found: Option<nat>)
    ensures match found
            case Some(i) => LastRelated(refs, i)
            case None => forall j | 0 <= j < |refs| :: !refs[j].Related()
  {
    if refs == [] then None
    else
      var n := |refs| - 1;
      if refs[n].Related() then Some(n) else FindRelated(refs[..n])
  }

  function FindSelf(refs: seq<Reference>): (found: Option<nat>)
    ensures match found case Some(i) => LastSelf(refs, i) case None => forall j | 0 <= j < |refs| :: !refs[j].Self()
  {
    if refs == [] then None
    else
      var n := |refs| - 1;
      if refs[n].Self() then Some(n) else FindSelf(refs[..n])
  }

  function Analyze(refs: seq<Reference>): Analyzed {
    var child, last := FindChild(refs), FindRelated(refs);
    var parent :=
      if child.Some? then child
      else if last.Some? && refs[last.value].ctx.value.IsValid() then last
      else None;
    Analyzed(parent, FindSelf(refs), Relatives(refs))
  }

  lemma AnalysisMeansIt(refs: seq<Reference>, a: Analyzed)
    ensures Means(refs, a) <==> a == Analyze(refs)
  {
    var b := Analyze(refs);
    var child, last := FindChild(refs), FindRelated(refs);
    if child.Some? {
      assert IsParent(refs, child.value);
    } else if last.Some? {
      assert forall i: nat | IsParent(refs, i) :: i == last.value;
    }
    assert Means(refs, b);
  }

  method AnalyzeReferences(refs: seq<Reference>) returns (result: Analyzed)
    ensures result == Analyze(refs) && Means(refs, result)
  {
    var hasParent := false;
    var parent: Option<nat> := None;
    var self: Option<nat> := None;
    var references := [];
    for i := 0 to |refs|
      invariant references == Relatives(refs[..i]) && self == FindSelf(refs[..i])
      invariant hasParent == FindChild(refs[..i]).Some?
      invariant parent == if hasParent then FindChild(refs[..i]) else FindRelated(refs[..i])
    {
      assert refs[..i + 1][..i] == refs[..i];
      var ref := refs[i];
      if ref.ctx.None? {
        continue;
      }
      var ctx := ref.ctx.value;
      if !ctx.IsValid() && !ctx.IsDebugIDContainerOnly() && ctx.baggage == map[] {
        continue;
      }
      if ref.kind == SelfRef {
        self := Some(i);
        continue;
      }
      references := references + [ref];
      if !hasParent {
        parent := Some(i);
        hasParent := ref.kind == ChildOf;
      }
    }
    assert refs[..|refs|] == refs;
    if !hasParent && parent.Some? && refs[parent.value].ctx.value.IsValid() {
      hasParent := true;
    }
    result := Analyzed(if hasParent then parent else None, self, references);
    AnalysisMeansIt(refs, result);
  }

  // ---- Starting a span ----

  type ID = x: u64 | x != 0 witness 1

  /** What randomID returns for this span: never zero.  Only a root on a 128-bit tracer uses
      `high`. */
  datatype Draws = Draws(high: ID, low: ID)

  /** The tags the tracer adds of its own accord. */
  datatype Internal = NoTags | SamplerTags | DebugTag(debugID: string)

  datatype Started =
    | Refused
    | Started(ctx: SpanContext, newTrace: bool, tags: Internal, references: seq<Reference>)

  /** The context of the reference a pointer points to. */
  function At(refs: seq<Reference>, pointer: Option<nat>): Option<SpanContext> {
    if pointer.Some? && pointer.value < |refs| then refs[pointer.value].ctx else None
  }

  /** A span that opens a trace; `sampler` answers for its trace ID. */
  function Root(gen128: bool, parent: Option<SpanContext>, self: Option<SpanContext>, draws: Draws,
                sampler: TraceID -> bool): (SpanContext, Internal)
  {
    var traceID := if self.Some? then self.value.traceID else TraceID(if gen128 then draws.high else 0, draws.low);
    var spanID := if self.Some? then self.value.spanID else traceID.low;
    var debug := parent.Some? && parent.value.IsDebugIDContainerOnly();
    var sampled := !debug && sampler(traceID);
    (SpanContext(traceID, spanID, 0, if debug then SAMPLED_FLAG + DEBUG_FLAG else if sampled then SAMPLED_FLAG else 0,
                 if parent.Some? then parent.value.baggage else map[], "", ""),
     if debug then DebugTag(parent.value.debugID) else if sampled then SamplerTags else NoTags)
  }

  function Child(parent: SpanContext, draws: Draws): SpanContext {
    SpanContext(parent.traceID, draws.low, parent.spanID, parent.flags, parent.baggage, "", "")
  }

  function StartSpan(gen128: bool, refs: seq<Reference>, draws: Draws, sampler: TraceID -> bool): Started {
    var a := Analyze(refs);
    var parent, self := At(refs, a.parent), At(refs, a.self);
    if self.Some? && (parent.Some? || a.references != []) then Refused
    else if parent.Some? && parent.value.IsValid() then
      Started(Child(parent.value, draws), false, NoTags, a.references)
    else
      var (ctx, tags) := Root(gen128, parent, self, draws, sampler);
      Started(ctx, true, tags, a.references)
  }

  /** A start is refused exactly when a usable self reference does not stand alone. */
  lemma RefusedExactly(gen128: bool, refs: seq<Reference>, draws: Draws, sampler: TraceID -> bool)
    ensures StartSpan(gen128, refs, draws, sampler).Refused?
       <==> (exists i | 0 <= i < |refs| :: refs[i].Self()) && (exists i | 0 <= i < |refs| :: refs[i].Related())
  {
    RelativesGrow(refs);
    AnalysisMeansIt(refs, Analyze(refs));
  }

  /** A context that gives a new span nothing: no valid IDs, no debug ID for a trace of its own, and no
      baggage. */
  predicate Useless(ref: Reference) {
    ref.ctx.None?
    || (&& (ref.ctx.value.traceID == NO_TRACE || ref.ctx.value.spanID == 0)
        && (ref.ctx.value.traceID != NO_TRACE || ref.ctx.value.debugID == "")
        && ref.ctx.value.baggage == map[])
  }

  /** The contexts that an analysis points to, parents that are not valid included. */
  datatype Picks = Picks(child: Option<SpanContext>, related: Option<SpanContext>, self: Option<SpanContext>)

  function Picked(refs: seq<Reference>): Picks {
    Picks(At(refs, FindChild(refs)), At(refs, FindRelated(refs)), At(refs, FindSelf(refs)))
  }

  lemma PushReference(refs: seq<Reference>, ref: Reference)
    ensures var p := Picked(refs);
            Picked(refs + [ref]) == Picks(
              if p.child.None? && ref.Child() then ref.ctx else p.child,
              if ref.Related() then ref.ctx else p.related,
              if ref.Self() then ref.ctx else p.self)
    ensures Relatives(refs + [ref]) == Relatives(refs) + if ref.Related() then [ref] else []
  {
    assert (refs + [ref])[..|refs|] == refs;
  }

  lemma {:induction false} UselessIsSkipped(a: seq<Reference>, ref: Reference, b: seq<Reference>)
    requires Useless(ref)
    ensures Relatives(a + [ref] + b) == Relatives(a + b) && Picked(a + [ref] + b) == Picked(a + b)
    decreases |b|
  {
    if b == [] {
      assert a + [ref] + b == a + [ref] && a + b == a;
      PushReference(a, ref);
    } else {
      var front, last := b[..|b| - 1], b[|b| - 1];
      UselessIsSkipped(a, ref, front);
      assert a + [ref] + b == (a + [ref] + front) + [last] && a + b == (a + front) + [last];
      PushReference(a + [ref] + front, last);
      PushReference(a + front, last);
    }
  }

  /** Useless references, wherever they stand, change nothing. */
  lemma UselessReferencesAreIgnored(gen128: bool, a: seq<Reference>, ref: Reference, b: seq<Reference>,
                                    draws: Draws, sampler: TraceID -> bool)
    requires Useless(ref)
    ensures StartSpan(gen128, a + [ref] + b, draws, sampler) == StartSpan(gen128, a + b, draws, sampler)
  {
    UselessIsSkipped(a, ref, b);
  }

  /** What a lone ChildOf reference gives: a parent with both IDs its trace, a debug ID without a trace
      a forced one, and baggage is taken over from either, or from a context without IDs. */
  lemma LoneParent(gen128: bool, ctx: SpanContext, draws: Draws, sampler: TraceID -> bool)
    ensures var started := StartSpan(gen128, [Reference(ChildOf, Some(ctx))], draws, sampler);
            && started.Started? && started.ctx.baggage == ctx.baggage
            && (ctx.traceID != NO_TRACE && ctx.spanID != 0 ==>
                  && !started.newTrace && started.ctx.traceID == ctx.traceID && started.ctx.spanID == draws.low
                  && started.ctx.parentID == ctx.spanID && started.ctx.flags == ctx.flags)
            && (ctx.traceID == NO_TRACE || ctx.spanID == 0 ==>
                  started.newTrace && started.ctx.parentID == 0 && started.ctx.traceID.low == draws.low)
            && (ctx.traceID == NO_TRACE && ctx.debugID != "" ==>
                  started.ctx.flags == 3 && started.tags == DebugTag(ctx.debugID))
            && (started.references == [] <==> Useless(Reference(ChildOf, Some(ctx))))
  {
    var refs := [Reference(ChildOf, Some(ctx))];
    assert refs[..0] == [];
    AnalysisMeansIt(refs, Analyze(refs));
    RelativesGrow(refs);
  }

  datatype Metrics = Metrics(
    spansStarted: nat,
    spansSampled: nat,
    spansNotSampled: nat,
    tracesStartedSampled: nat,
    tracesStartedNotSampled: nat)

  const NO_METRICS := Metrics(0, 0, 0, 0, 0)

  function CountStart(m: Metrics, sampled: bool, newTrace: bool): Metrics {
    Metrics(
      m.spansStarted + 1,
      m.spansSampled + if sampled then 1 else 0,
      m.spansNotSampled + if sampled then 0 else 1,
      m.tracesStartedSampled + if newTrace && sampled then 1 else 0,
      m.tracesStartedNotSampled + if newTrace && !sampled then 1 else 0)
  }

  class Tracer {
    const gen128: bool
    var metrics: Metrics

    constructor (gen128: bool)
      ensures this.gen128 == gen128 && metrics == NO_METRICS
    {
      this.gen128 := gen128;
      metrics := NO_METRICS;
    }

    method StartSpanWithOptions(refs: seq<Reference>, draws: Draws, sampler: TraceID -> bool) returns (span: Started)
      modifies this
      ensures span == StartSpan(gen128, refs, draws, sampler)
      ensures metrics == if span.Refused? then old(metrics)
                         else CountStart(old(metrics), span.ctx.IsSampled(), span.newTrace)
    {
      var result := AnalyzeReferences(refs);
      var parent, self := At(refs, result.parent), At(refs, result.self);
      if self.Some? && (parent.Some? || result.references != []) {
        return Refused;
      }
      var samplerTags := NoTags;
      var newTrace := false;
      var ctx;
      if parent.None? || !parent.value.IsValid() {
        newTrace := true;
        var highID, lowID := 0, 0;
        if self.Some? {
          highID, lowID := self.value.traceID.high, self.value.traceID.low;
        } else {
          if gen128 {
            highID := draws.high;
          }
          lowID := draws.low;
        }
        var traceID := TraceID(highID, lowID);
        var spanID := if self.Some? then self.value.spanID else traceID.low;
        var flags := 0;
        if parent.Some? && parent.value.IsDebugIDContainerOnly() {
          flags := SAMPLED_FLAG + DEBUG_FLAG;
          samplerTags := DebugTag(parent.value.debugID);
        } else if sampler(traceID) {
          flags := SAMPLED_FLAG;
          samplerTags := SamplerTags;
        }
        ctx := SpanContext(traceID, spanID, 0, flags, map[], "", "");
      } else {
        ctx := SpanContext(parent.value.traceID, draws.low, parent.value.spanID, parent.value.flags, map[], "", "");
      }
      if parent.Some? && parent.value.baggage != map[] {
        ctx := ctx.(baggage := parent.value.baggage);
      }
      StartSpanInternal(ctx, newTrace);
      return Started(ctx, newTrace, samplerTags, result.references);
    }

    method StartSpanInternal(ctx: SpanContext, newTrace: bool)
      modifies this
      ensures metrics == CountStart(old(metrics), ctx.IsSampled(), newTrace)
    {
      metrics := metrics.(spansStarted := metrics.spansStarted + 1);
      if ctx.IsSampled() {
        metrics := metrics.(spansSampled := metrics.spansSampled + 1);
        if newTrace {
          metrics := metrics.(tracesStartedSampled := metrics.tracesStartedSampled + 1);
        }
      } else {
        metrics := metrics.(spansNotSampled := metrics.spansNotSampled + 1);
        if newTrace {
          metrics := metrics.(tracesStartedNotSampled := metrics.tracesStartedNotSampled + 1);
        }
      }
    }
  }
}
