/**
 The reporter object.  Each method is one of the atomic steps of the pipeline, or a sequence
 of them run by one thread; its contract says which.
 */
module RemoteReporting {
  import opened ThriftSending
  import opened ReportingPipeline

  class RemoteReporter {
    const fixedQueueSize: int
    const sender: ThriftSender
    var queue: seq<Span>
    var queueLength: int
    var running: bool
    var reporterSuccess: nat
    var reporterFailure: nat
    var reporterDropped: nat

    // Where the threads are, and what became of the spans.
    ghost var inFlight: nat
    ghost var worker: Worker
    ghost var closer: Closer
    ghost var past: History  // but for the log, which is the sender's, and the counters above

    ghost function Now(): State
      reads this, sender
    {
      State(fixedQueueSize, queue, queueLength, inFlight, running, worker, closer, sender.Contents(),
            past.(log := sender.handed, reporterSuccess := reporterSuccess,
                  reporterFailure := reporterFailure, reporterDropped := reporterDropped))
    }

    constructor (fixedQueueSize: int, sender: ThriftSender)
      requires sender.Contents() == NewSender(sender.maxPacketSize) && sender.handed == []
      ensures this.sender == sender && Now() == Initial(fixedQueueSize, sender.maxPacketSize)
    {
      this.fixedQueueSize := fixedQueueSize;
      this.sender := sender;
      queue, queueLength, running := [], 0, true;
      reporterSuccess, reporterFailure, reporterDropped := 0, 0, 0;
      inFlight, worker, closer := 0, Waiting, NotCalled;
      past := History(0, [], [], [], [], 0, 0, 0, 0, 0);
    }

    /** The part of report that holds the lock. */
    method Push(span: Span) returns (pushed: bool)
      requires LockFree(Now()) && span.serial == past.offered
      modifies this
      ensures Now() == Next(old(Now()), Step.Report(span.size, span.processSize))
      ensures pushed <==> old(|queue|) < fixedQueueSize
    {
      past := past.(offered := past.offered + 1);
      pushed := |queue| < fixedQueueSize;
      if pushed {
        queue := queue + [span];
        inFlight := inFlight + 1;
      } else {
        reporterDropped := reporterDropped + 1;
        past := past.(dropped := past.dropped + [span]);
      }
    }

    /** The part of report after the lock: the atomic counter follows. */
    method CountPushed()
      requires inFlight > 0
      modifies this
      ensures Now() == Next(old(Now()), Increment)
    {
      queueLength := queueLength + 1;
      inFlight := inFlight - 1;
    }

    /** report, when no other thread comes in between. */
    method Report(span: Span) returns (ghost steps: seq<Step>)
      requires LockFree(Now()) && span.serial == past.offered
      modifies this
      ensures Runs(old(Now()), steps, Now())
      ensures past.offered == old(past.offered) + 1
      ensures if old(|queue|) < fixedQueueSize then
                && queue == old(queue) + [span] && queueLength == old(queueLength) + 1
                && past.dropped == old(past.dropped) && reporterDropped == old(reporterDropped)
              else
                && queue == old(queue) && queueLength == old(queueLength)
                && past.dropped == old(past.dropped) + [span] && reporterDropped == old(reporterDropped) + 1
      ensures reporterSuccess == old(reporterSuccess) && reporterFailure == old(reporterFailure)
      ensures inFlight == old(inFlight) && running == old(running) && worker == old(worker)
    {
      ghost var before := Now();
      var pushed := Push(span);
      steps := [Step.Report(span.size, span.processSize)];
      RunsExtend(before, [], before, steps[0]);
      assert [] + steps == steps;
      if pushed {
        ghost var between := Now();
        CountPushed();
        RunsExtend(before, steps, between, Increment);
        steps := steps + [Increment];
      }
    }

    method TakeFront() returns (span: Span)
      requires worker.Waiting? && queue != []
      modifies this
      ensures span == old(queue[0]) && Now() == Next(old(Now()), Take)
    {
      span := queue[0];
      queue := queue[1..];
      queueLength := queueLength - 1;
      worker := Sending(span);
    }

    /** The metrics after a sender call, as sendSpan and flush both count them. */
    method CountOutcome(outcome: Outcome)
      modifies this`reporterSuccess, this`reporterFailure
      ensures reporterSuccess == old(reporterSuccess) + if outcome.Returned? then outcome.flushed else 0
      ensures reporterFailure == old(reporterFailure) + if outcome.Threw? then outcome.numFailed else 0
    {
      match outcome {
        case Returned(flushed) =>
          if flushed > 0 {
            reporterSuccess := reporterSuccess + flushed;
          }
        case Threw(numFailed) =>
          reporterFailure := reporterFailure + numFailed;
      }
    }

    method SendSpan(span: Span, accepts: bool)
      requires worker == Sending(span)
      modifies this, sender
      ensures Now() == Next(old(Now()), Send(accepts))
    {
      ghost var fate := FateOf(sender.Contents(), span, accepts);
      var outcome := sender.Append(span, accepts);
      CountOutcome(outcome);
      past := match fate
              case Kept => past
              case Rejected => past.(rejected := past.rejected + [span])
              case Displaced => past.(displaced := past.displaced + [span]);
      worker := Waiting;
    }

    method FlushSender(accepts: bool)
      modifies this`reporterSuccess, this`reporterFailure, sender
      ensures Now() == Flushed(old(Now()), accepts)
    {
      var outcome := sender.Flush(Explicit, accepts);
      CountOutcome(outcome);
    }

    /** One round of the worker's loop, once its wait is over: it ends the loop, sends a span,
        flushes if the interval has expired, or does nothing. */
    method SweepOnce(expired: bool, accepts: bool) returns (exited: bool, ghost steps: seq<Step>)
      requires worker.Waiting?
      modifies this, sender
      ensures Runs(old(Now()), steps, Now())
      ensures exited <==> !old(running) && old(queue) == []
      ensures worker == if exited then Exited else Waiting
      ensures running == old(running) && closer == old(closer)
      ensures queue == if old(queue) == [] then [] else old(queue)[1..]
      ensures old(queue) != [] ==> Now() == Next(Next(old(Now()), Take), Send(accepts))
      ensures old(queue) == [] && running ==> Now() == if expired then Flushed(old(Now()), accepts) else old(Now())
      ensures accepts && AlwaysAccepted(old(sender.handed)) ==> AlwaysAccepted(sender.handed)
    {
      exited := false;
      ghost var s0 := Now();
      if !running && queue == [] {
        worker := Exited;
        past := past.(offeredBeforeExit := past.offered);
        steps := [Exit];
        RunsStep(s0, Exit);
        return true, steps;
      }
      if queue != [] {
        var span := TakeFront();
        ghost var s1 := Now();
        SendSpan(span, accepts);
        steps := [Take, Send(accepts)];
        RunsTwo(s0, Take, s1, Send(accepts));
      } else if expired {
        worker := Flushing;
        ghost var s1 := Now();
        FlushSender(accepts);
        worker := Waiting;
        steps := [TimeOut, Step.Flush(accepts)];
        RunsTwo(s0, TimeOut, s1, Step.Flush(accepts));
      } else {
        steps := [Idle];
        RunsStep(s0, Idle);
      }
    }

    /** The worker's loop from the moment the reporter is stopped, if no new spans come: it empties
        the queue in order and ends.  `accepts(i)` is the transport's answer to the i-th span. */
    method SweepQueue(accepts: nat -> bool) returns (ghost steps: seq<Step>)
      requires !running && worker.Waiting?
      modifies this, sender
      ensures Runs(old(Now()), steps, Now())
      ensures queue == [] && worker.Exited? && closer == old(closer) && !running
      ensures (forall k :: accepts(k)) && AlwaysAccepted(old(sender.handed)) ==> AlwaysAccepted(sender.handed)
    {
      ghost var start := Now();
      steps := [];
      var sent := 0;
      var exited := false;
      while !exited
        invariant Runs(start, steps, Now())
        invariant !running && closer == old(closer)
        invariant worker == if exited then Exited else Waiting
        invariant exited ==> queue == []
        invariant (forall k :: accepts(k)) && AlwaysAccepted(old(sender.handed)) ==> AlwaysAccepted(sender.handed)
        decreases |queue|, !exited
      {
        ghost var before, round := Now(), [];
        exited, round := SweepOnce(false, accepts(sent));
        RunsJoin(start, steps, before, round, Now());
        steps := steps + round;
        sent := sent + 1;
      }
    }

    /** What close does once the worker has exited. */
    method JoinAndFlush(accepts: bool) returns (ghost steps: seq<Step>)
      requires closer.Joining? && worker.Exited?
      modifies this, sender
      ensures Runs(old(Now()), steps, Now())
      ensures closer.Closed? && running == old(running) && queue == old(queue) && worker == old(worker)
      ensures accepts ==> sender.spanBuffer == []
      ensures accepts && AlwaysAccepted(old(sender.handed)) ==> AlwaysAccepted(sender.handed)
    {
      ghost var exited := Now();
      closer := FinalFlush;
      ghost var joined := Now();
      FlushSender(accepts);
      closer := Closed;
      steps := [Join, LastFlush(accepts)];
      RunsTwo(exited, Join, joined, LastFlush(accepts));
    }

    /** close: the first call stops the reporter, waits for the worker and flushes; any other, also
        the destructor's, returns at once. */
    method Close(accepts: nat -> bool, acceptsLast: bool) returns (ghost steps: seq<Step>)
      requires LockFree(Now()) && (running ==> worker.Waiting?)
      modifies this, sender
      ensures Runs(old(Now()), steps, Now()) && LockFree(Now()) && !running
      ensures old(running) ==> queue == [] && worker.Exited? && closer.Closed?
      ensures old(running) && acceptsLast ==> sender.spanBuffer == []
      ensures (forall k :: accepts(k)) && acceptsLast && AlwaysAccepted(old(sender.handed)) ==>
                AlwaysAccepted(sender.handed)
      ensures !old(running) ==> Now() == old(Now())
    {
      ghost var start := Now();
      steps := [];
      if !running {
        return;
      }
      running := false;
      closer := Joining;
      past := past.(joins := past.joins + 1);
      ghost var stopped := Now();
      ghost var swept := SweepQueue(accepts);
      ghost var exited := Now();
      ghost var flushed := JoinAndFlush(acceptsLast);
      RunsJoin(stopped, swept, exited, flushed, Now());
      steps := [Step.Close] + (swept + flushed);
      assert steps[1..] == swept + flushed;
    }
  }

  lemma RunsStep(s: State, step: Step)
    requires Enabled(s, step)
    ensures Runs(s, [step], Next(s, step))
  {
    RunsExtend(s, [], s, step);
    assert [] + [step] == [step];
  }

  lemma RunsTwo(s: State, first: Step, mid: State, second: Step)
    requires Enabled(s, first) && mid == Next(s, first) && Enabled(mid, second)
    ensures Runs(s, [first, second], Next(mid, second))
  {
    RunsStep(s, first);
    RunsExtend(s, [first], mid, second);
    assert [first] + [second] == [first, second];
  }
}
