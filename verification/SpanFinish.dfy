/**
 Finishing spans: who reports a span, and how often, when span objects are finished, copied,
 swapped, assigned and destroyed.
 */
module SpanFinishing {
  import opened SpanContexts
  import Lineage = SpanLineage

  /** What a span object holds.  `id` names the span it was started as, which copies share. */
  datatype Content = Content(
    id: nat,
    traced: bool,
    ctx: SpanContext,
    startTime: int,
    duration: int,
    logs: seq<string>)
  {
    predicate IsFinished() {
      duration != 0
    }

    /** Finishing it would report it. */
    predicate Pending() {
      traced && !IsFinished()
    }
  }

  /** The content after finishing at a time, in ticks. */
  function Finished(c: Content, time: int, logs: seq<string>): (done: Content)
    ensures done.IsFinished() && done.(duration := c.duration, logs := c.logs) == c
    ensures c.duration >= 0 ==> done.duration > 0
  {
    if c.IsFinished() then c
    else c.(duration := if time - c.startTime <= 0 then 1 else time - c.startTime, logs := c.logs + logs)
  }

  /** The time a span ends is the time of its first finish, unless that is not behind its start: then it
      is one tick later.  Later finishes change nothing, and the records given join the logs once. */
  lemma FirstFinishCounts(c: Content, time: int, logs: seq<string>, later: int, more: seq<string>)
    requires !c.IsFinished()
    ensures var done := Finished(c, time, logs);
            && done.startTime + done.duration == (if time > c.startTime then time else c.startTime + 1)
            && done.logs == c.logs + logs
            && Finished(done, later, more) == done
  {
  }

  /** What finishing it reports. */
  function Reports(c: Content, time: int, logs: seq<string>): seq<Content> {
    if c.Pending() then [Finished(c, time, logs)] else []
  }

  // ---- Objects ----

  /** Tracer::reportSpan: every call is counted, sampled spans are handed to the reporter. */
  class Tracer {
    var spansFinished: nat
    var reported: seq<Content>

    constructor ()
      ensures spansFinished == 0 && reported == []
    {
      spansFinished, reported := 0, [];
    }

    method ReportSpan(span: Content)
      modifies this
      ensures spansFinished == old(spansFinished) + 1
      ensures reported == old(reported) + if span.ctx.IsSampled() then [span] else []
    {
      spansFinished := spansFinished + 1;
      if span.ctx.IsSampled() {
        reported := reported + [span];
      }
    }
  }

  /** The tracer after a report or none. */
  twostate predicate Heard(tracer: Tracer, reports: seq<Content>)
    reads tracer
  {
    && tracer.spansFinished == old(tracer.spansFinished) + |reports|
    && tracer.reported ==
         old(tracer.reported) + if reports != [] && reports[0].ctx.IsSampled() then [reports[0]] else []
  }

  class Span {
    var id: nat
    var tracer: Tracer?
    var ctx: SpanContext
    var startTime: int
    var duration: int
    var logs: seq<string>

    function Holds(): Content
      reads this
    {
      Content(id, tracer != null, ctx, startTime, duration, logs)
    }

    constructor (id: nat, tracer: Tracer?, ctx: SpanContext, startTime: int)
      ensures Holds() == Content(id, tracer != null, ctx, startTime, 0, []) && this.tracer == tracer
    {
      this.id, this.tracer, this.ctx, this.startTime := id, tracer, ctx, startTime;
      duration, logs := 0, [];
    }

    constructor Copy(span: Span)
      ensures Holds() == span.Holds() && tracer == span.tracer
    {
      id, tracer, ctx, startTime := span.id, span.tracer, span.ctx, span.startTime;
      duration, logs := span.duration, span.logs;
    }

    /** A time of 0 stands for `now`. */
    method FinishWithOptions(finishTime: int, now: int, records: seq<string>)
      modifies this, tracer
      ensures var time := if finishTime == 0 then now else finishTime;
              && Holds() == Finished(old(Holds()), time, records) && tracer == old(tracer)
              && (tracer != null ==> Heard(tracer, Reports(old(Holds()), time, records)))
    {
      var finishTimeSteady := if finishTime == 0 then now else finishTime;
      if duration != 0 {
        return;
      }
      duration := finishTimeSteady - startTime;
      if duration <= 0 {
        duration := 1;
      }
      logs := logs + records;
      if tracer != null {
        tracer.ReportSpan(Holds());
      }
    }

    /** The destructor. */
    method Destroy(now: int)
      modifies this, tracer
      ensures Holds() == Finished(old(Holds()), now, []) && tracer == old(tracer)
      ensures tracer != null ==> Heard(tracer, Reports(old(Holds()), now, []))
    {
      FinishWithOptions(0, now, []);
    }

    method Swap(span: Span)
      modifies this, span
      ensures Holds() == old(span.Holds()) && tracer == old(span.tracer)
      ensures span.Holds() == old(Holds()) && span.tracer == old(tracer)
    {
      id, span.id := span.id, id;
      tracer, span.tracer := span.tracer, tracer;
      ctx, span.ctx := span.ctx, ctx;
      startTime, span.startTime := span.startTime, startTime;
      duration, span.duration := span.duration, duration;
      logs, span.logs := span.logs, logs;
    }

    /** Assignment copies, swaps, and destroys what was there before, which reports it if it was
        not finished: also when a span is assigned to itself. */
    method Assign(rhs: Span, now: int)
      modifies this, tracer
      ensures Holds() == old(rhs.Holds()) && tracer == old(rhs.tracer)
      ensures old(tracer) != null ==> Heard(old(tracer), Reports(old(Holds()), now, []))
    {
      var temporary := new Span.Copy(rhs);
      Swap(temporary);
      temporary.Destroy(now);
    }

    /** The value of the "sampling.priority" tag, as a truth value. */
    method SetSamplingPriority(priority: bool)
      modifies this
      ensures Holds() == old(Holds()).(ctx := Lineage.WithPriority(old(ctx), priority)) && tracer == old(tracer)
    {
      var newFlags := ctx.flags;
      if priority {
        newFlags := newFlags - newFlags % 4 + SAMPLED_FLAG + DEBUG_FLAG;
      } else {
        newFlags := newFlags - newFlags % 2;
      }
      ctx := SpanContext(ctx.traceID, ctx.spanID, ctx.parentID, newFlags, ctx.baggage, ctx.debugID, "");
    }
  }
}
