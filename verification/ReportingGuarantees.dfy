/**
 What the reporting pipeline guarantees in every state that any interleaving of its steps
 can reach, whatever the transport does.
 */
module ReportingGuarantees {
  import opened ThriftSending
  import opened ReportingPipeline

  /** In how many accepted batches the span occurs, counted with repetition. */
  function Deliveries(log: seq<HandOff>, n: nat): nat {
    if log == [] then 0
    else
      var last := log[|log| - 1];
      Deliveries(log[..|log| - 1], n) + if last.accepted then Count(last.batch.spans, n) else 0
  }

  function SpansDelivered(log: seq<HandOff>): nat {
    if log == [] then 0
    else
      var last := log[|log| - 1];
      SpansDelivered(log[..|log| - 1]) + if last.accepted then |last.batch.spans| else 0
  }

  lemma {:induction false} EmittedAreDelivered(log: seq<HandOff>, n: nat)
    ensures Count(Emitted(log), n) == Deliveries(log, n)
    ensures |Emitted(log)| == SpansDelivered(log)
  {
    if log != [] {
      var front, last := log[..|log| - 1], log[|log| - 1];
      EmittedAreDelivered(front, n);
      CountConcat(Emitted(front), if last.accepted then last.batch.spans else [], n);
    }
  }

  lemma StreamCounts(s: State, n: nat)
    ensures Count(Stream(s), n) ==
            Deliveries(s.history.log, n) + Count(s.sender.buffer, n) + Count(InHand(s), n) + Count(s.queue, n)
  {
    var emitted, buffered := Emitted(s.history.log), s.sender.buffer;
    CountConcat(emitted, buffered, n);
    CountConcat(emitted + buffered, InHand(s), n);
    CountConcat(emitted + buffered + InHand(s), s.queue, n);
    EmittedAreDelivered(s.history.log, n);
  }

  /** Conservation: every span ever offered is in exactly one place, exactly once. */
  lemma EverySpanIsInOnePlace(s: State, n: nat)
    requires Reachable(s)
    ensures Count(s.history.dropped, n) + Count(s.history.rejected, n) + Count(s.history.displaced, n)
            + Deliveries(s.history.log, n) + Count(s.sender.buffer, n) + Count(InHand(s), n) + Count(s.queue, n)
            == if n < s.history.offered then 1 else 0
  {
    ReachableInv(s);
    StreamCounts(s, n);
    assert Tally(LedgerOf(s), n) == if n < s.history.offered then 1 else 0;
  }

  /** Emitted, then buffered, then in the worker's hand, then queued: acceptance order. */
  lemma SpansStayInOrder(s: State)
    requires Reachable(s)
    ensures InOrder(Emitted(s.history.log) + s.sender.buffer + InHand(s) + s.queue)
  {
    ReachableInv(s);
  }

  /** reporterSuccess is the number of spans the transport took.  reporterFailure counts a
      refused batch again at every refusal, and never counts a displaced span. */
  lemma MetricsTellTheTruth(s: State)
    requires Reachable(s)
    ensures s.history.reporterSuccess == SpansDelivered(s.history.log)
    ensures s.history.reporterFailure == |s.history.rejected| + Refused(s.history.log)
    ensures s.history.reporterDropped == |s.history.dropped|
  {
    ReachableInv(s);
    EmittedAreDelivered(s.history.log, 0);
  }

  lemma NextIsReachable(s: State, step: Step)
    requires Reachable(s) && Enabled(s, step)
    ensures Reachable(Next(s, step))
  {
    var size, packet, steps :| Runs(Initial(size, packet), steps, s);
    RunsExtend(Initial(size, packet), steps, s, step);
  }

  /** reporterFailure as a count of the spans the sender has lost: it never misses one that was too
      large or displaced, and is exact as long as each refusal was an overflow flush of a single
      span. */
  lemma FailureCountsLossExactly(s: State)
    requires Reachable(s)
    ensures var lost, log := |s.history.rejected| + |s.history.displaced|, s.history.log;
            && s.history.reporterFailure >= lost
            && (s.history.reporterFailure == lost <==>
                  forall i | 0 <= i < |log| && !log[i].accepted :: log[i].cause.Overflow? && |log[i].batch.spans| == 1)
  {
    ReachableInv(s);
    RefusalsAndDisplacements(s.sender.maxPacketSize, s.history.log);
  }

  lemma {:induction false} RefusalsAndDisplacements(maxPacketSize: int, log: seq<HandOff>)
    requires AllFit(maxPacketSize, log)
    ensures Refused(log) >= Displacements(log)
    ensures Refused(log) == Displacements(log) <==>
              forall i | 0 <= i < |log| && !log[i].accepted :: log[i].cause.Overflow? && |log[i].batch.spans| == 1
  {
    if log != [] {
      var n := |log| - 1;
      assert FitsPacket(maxPacketSize, log[n].batch);
      assert forall i | 0 <= i < n :: log[..n][i] == log[i];
      RefusalsAndDisplacements(maxPacketSize, log[..n]);
    }
  }

  // A closed reporter has also lost what is left in the sender's buffer and in the queue.

  function Lost(s: State): nat {
    |s.history.rejected| + |s.history.displaced| + |s.sender.buffer| + |s.queue|
  }

  /** The hand-offs but for the last one, if it is the one that left the buffer behind. */
  function Settled(s: State): seq<HandOff> {
    var n := |s.history.log| - 1;
    if s.sender.buffer != [] && n >= 0 then s.history.log[..n] else s.history.log
  }

  /** What refusals add to the counter besides the spans they displaced. */
  function Overcount(log: seq<HandOff>): int {
    Refused(log) - Displacements(log)
  }

  /** reporterFailure of a closed reporter, exactly: it leaves out the spans stranded in the queue,
      and over-counts each settled refusal but those that displaced a single span. */
  lemma FailureCountOfClosedReporter(s: State)
    requires Reachable(s) && s.closer.Closed?
    ensures s.history.reporterFailure + |s.queue| == Lost(s) + Overcount(Settled(s))
    ensures Overcount(Settled(s)) >= 0
    ensures s.history.reporterFailure + |s.queue| == Lost(s) <==>
              forall i | 0 <= i < |Settled(s)| && !Settled(s)[i].accepted ::
                Settled(s)[i].cause.Overflow? && |Settled(s)[i].batch.spans| == 1
  {
    ReachableInv(s);
    SettledCounts(s);
    RefusalsAndDisplacements(s.sender.maxPacketSize, Settled(s));
  }

  lemma SettledCounts(s: State)
    requires BufferRefused(s) && PacketsFit(s) && s.closer.Closed?
    ensures AllFit(s.sender.maxPacketSize, Settled(s))
    ensures Refused(s.history.log) == Refused(Settled(s)) + |s.sender.buffer|
    ensures Displacements(s.history.log) == Displacements(Settled(s))
  {
    var log := s.history.log;
    if s.sender.buffer != [] {
      var n := |log| - 1;
      assert log == log[..n] + [log[n]];
      RefusedPush(log[..n], log[n]);
      DisplacementsPush(log[..n], log[n]);
    }
  }

  /** reporterFailure is the number of spans a closed reporter lost exactly when what it over-counts
      is what the queue holds, so with an empty queue exactly when it over-counts nothing. */
  lemma FailureCountIsLossExactly(s: State)
    requires Reachable(s) && s.closer.Closed?
    ensures s.history.reporterFailure == Lost(s) <==> Overcount(Settled(s)) == |s.queue|
  {
    FailureCountOfClosedReporter(s);
  }

  /** Closing a reporter with an empty queue. */
  lemma CloseIdle(s: State, accepts: bool) returns (t: State)
    requires Reachable(s) && s.running && s.worker.Waiting? && s.queue == []
    ensures Reachable(t) && t.closer.Closed? && t.worker.Exited? && t.queue == []
    ensures t.fixedQueueSize == s.fixedQueueSize
    ensures var c := FlushCall(s.sender, Explicit, accepts);
            && t.sender == c.sender
            && t.history == Account(s.history, c).(joins := s.history.joins + 1, offeredBeforeExit := s.history.offered)
  {
    var exited := StopIdle(s);
    NextIsReachable(exited, Join);
    var joined := Next(exited, Join);
    NextIsReachable(joined, LastFlush(accepts));
    t := Next(joined, LastFlush(accepts));
  }

  lemma StopIdle(s: State) returns (t: State)
    requires Reachable(s) && s.running && s.worker.Waiting? && s.queue == []
    ensures Reachable(t)
    ensures t == s.(running := false, closer := Joining, worker := Exited,
                    history := s.history.(joins := s.history.joins + 1, offeredBeforeExit := s.history.offered))
  {
    NextIsReachable(s, Close);
    var stopped := Next(s, Close);
    NextIsReachable(stopped, Exit);
    t := Next(stopped, Exit);
  }

  /** Offering a span to a reporter with an empty queue, and sending it. */
  lemma OfferAndSend(s: State, size: nat, processSize: nat, accepts: bool) returns (t: State)
    requires Reachable(s) && s.running && s.worker.Waiting? && s.queue == [] && s.fixedQueueSize > 0
    ensures Reachable(t)
    ensures var span := Span(s.history.offered, size, processSize);
            var offered := s.(inFlight := s.inFlight + 1, queueLength := s.queueLength - 1,
                              history := s.history.(offered := s.history.offered + 1));
            t == Appended(offered, span, accepts)
  {
    NextIsReachable(s, Report(size, processSize));
    var queued := Next(s, Report(size, processSize));
    NextIsReachable(queued, Take);
    var taken := Next(queued, Take);
    NextIsReachable(taken, Send(accepts));
    t := Next(taken, Send(accepts));
  }

  lemma OneSpanBuffered() returns (s: State)
    ensures Reachable(s) && s.running && s.worker.Waiting? && s.queue == [] && |s.sender.buffer| == 1
    ensures s.history.log == [] && s.history.rejected == s.history.displaced == [] && s.history.reporterFailure == 0
  {
    s := Initial(10, 100);
    assert Runs(s, [], s);
    s := OfferAndSend(s, 20, 10, true);
  }

  /** A span offered to a closed reporter is queued for good, and no counter knows of it. */
  lemma LossWithoutCount() returns (s: State)
    ensures Reachable(s) && s.closer.Closed? && |s.queue| == 1 == Lost(s) && s.history.log == []
    ensures s.history.reporterFailure == s.history.reporterSuccess == s.history.reporterDropped == 0
  {
    var s0 := Initial(10, 100);
    assert Runs(s0, [], s0);
    var closed := CloseIdle(s0, true);
    assert FlushCall(s0.sender, Explicit, true) == Call(s0.sender, Returned(0), []);
    assert closed.history.log == [] && closed.sender.buffer == [] && closed.history.offered == 0;
    NextIsReachable(closed, Report(20, 10));
    s := Next(closed, Report(20, 10));
  }

  /** A refused last flush of one span counts it, and it is lost, although this was no overflow. */
  lemma LossCountedAtLastFlush() returns (s: State)
    ensures Reachable(s) && s.closer.Closed? && s.queue == [] && |s.sender.buffer| == 1
    ensures s.history.reporterFailure == 1 == Lost(s)
    ensures |s.history.log| == 1 && !s.history.log[0].accepted && s.history.log[0].cause.Explicit?
  {
    var buffered := OneSpanBuffered();
    s := CloseIdle(buffered, false);
  }

  /** Spans of 60 bytes for packets with room for one, and a transport that refuses them all: the
      first is buffered and refused, each later one displaced by a refused overflow flush. */
  lemma {:induction false} RefusedAgainAndAgain(displaced: nat) returns (s: State)
    ensures Reachable(s) && s.running && s.worker.Waiting? && s.queue == [] && s.fixedQueueSize == 10
    ensures s.sender.maxPacketSize == 100 && s.sender.hasProcess && s.sender.maxSpanBytes == 60
    ensures |s.sender.buffer| == 1 && s.sender.byteBufferSize == 60 * (displaced + 1)
    ensures s.history.reporterFailure == displaced + 1
    ensures |s.history.rejected| == 0 && |s.history.displaced| == displaced
  {
    if displaced == 0 {
      s := Initial(10, 100);
      assert Runs(s, [], s);
    } else {
      s := RefusedAgainAndAgain(displaced - 1);
    }
    s := OfferAndSend(s, 60, 10, false);
  }

  /** reporterFailure is not the number of lost spans: it can be 2 when only the second span is
      lost and the first one is still to be sent. */
  lemma FailureCountIsNotLoss() returns (s: State)
    ensures Reachable(s) && s.history.reporterFailure == 2
    ensures |s.history.rejected| == 0 && |s.history.displaced| == 1 && |s.sender.buffer| == 1
  {
    s := RefusedAgainAndAgain(1);
  }

  /** Every batch handed to the transport, taken or not, fits a packet with its envelope. */
  lemma EveryBatchFitsAPacket(s: State, i: nat)
    requires Reachable(s) && i < |s.history.log|
    ensures var b := s.history.log[i].batch;
            b.processSize + TotalBytes(b.spans) + EMIT_BATCH_OVERHEAD <= s.sender.maxPacketSize
  {
    ReachableInv(s);
  }

  /** The byte counter, exactly: the bytes buffered, those of spans displaced since the last
      batch the transport took, and the process record if it ever took one. */
  lemma CounterIsExact(s: State)
    requires Reachable(s)
    ensures s.sender.byteBufferSize == TotalBytes(s.sender.buffer) + Surplus(s.history.log, s.sender.processSize)
    ensures Excess(s.history.log) > 0 ==> s.sender.buffer != []
    ensures Excess(s.history.log) <= TotalBytes(s.history.displaced)
  {
    ReachableInv(s);
    ExcessIsDisplaced(s.history.log);
  }

  lemma {:induction false} ExcessIsDisplaced(log: seq<HandOff>)
    ensures Excess(log) <= DisplacedBytes(log)
  {
    if log != [] {
      ExcessIsDisplaced(log[..|log| - 1]);
    }
  }

  const INT_RANGE := 0x8000_0000

  /** The byte counter is a C++ int: adding a span of `size` bytes would leave its range. */
  predicate Overflows(s: Sender, size: int) {
    s.byteBufferSize + size >= INT_RANGE
  }

  /** Some admissible span would overflow the counter exactly when the bytes displaced since the
      last batch taken, with those buffered, leave no room for the largest. */
  lemma CounterOverflowsExactly(s: State)
    requires Reachable(s) && s.sender.hasProcess && 0 <= s.sender.maxSpanBytes
    ensures (exists size :: 0 <= size <= s.sender.maxSpanBytes && Overflows(s.sender, size))
       <==> TotalBytes(s.sender.buffer) + Surplus(s.history.log, s.sender.processSize) + s.sender.maxSpanBytes
            >= INT_RANGE
  {
    CounterIsExact(s);
    assert Overflows(s.sender, s.sender.maxSpanBytes) <==>
             s.sender.byteBufferSize + s.sender.maxSpanBytes >= INT_RANGE;
  }

  /** In particular while those bytes stay below 2^31 less two packets. */
  lemma ByteCounterStaysInRange(s: State)
    requires Reachable(s) && s.sender.hasProcess && 0 <= s.sender.maxSpanBytes
    requires Excess(s.history.log) + 2 * s.sender.maxPacketSize < INT_RANGE
    ensures 0 <= s.sender.byteBufferSize && s.sender.byteBufferSize + s.sender.maxSpanBytes < INT_RANGE
  {
    ReachableInv(s);
    CounterIsExact(s);
  }

  /** A transport that goes on refusing takes the counter beyond the packet, and in the end beyond
      the range of an int. */
  lemma CounterHasNoBound(bound: nat) returns (s: State)
    ensures Reachable(s) && s.sender.maxPacketSize == 100 && s.sender.byteBufferSize > bound
    ensures |s.sender.buffer| == 1
  {
    s := RefusedAgainAndAgain(bound);
  }

  /** Every batch flushed by an append is full: with what the counter held besides it, its bytes
      and the next span's exceed the room, or fill it exactly. */
  lemma AutomaticBatchesAreFull(s: State, i: nat)
    requires Reachable(s) && i < |s.history.log|
    ensures var h, before := s.history.log[i], s.history.log[..i];
            var room := s.sender.maxPacketSize - h.batch.processSize - EMIT_BATCH_OVERHEAD;
            var bytes := TotalBytes(h.batch.spans) + Surplus(before, h.batch.processSize);
            && (h.cause.Overflow? ==> bytes + h.cause.next > room)
            && (h.cause.ExactHit? ==> bytes == room)
            && Surplus(before, h.batch.processSize) <= Excess(before) + h.batch.processSize
  {
    ReachableInv(s);
    var h := s.history.log[i];
    assert Full(s.sender.maxPacketSize, h, Surplus(s.history.log[..i], h.batch.processSize));
  }

  /** What a step hands over: a sending step only batches that an append flushed, and so full ones; a
      time-out and the last flush only batches asked for; any other step nothing. */
  lemma HandOffsOfStep(s: State, step: Step)
    requires Reachable(s) && Enabled(s, step)
    ensures var log, after := s.history.log, Next(s, step).history.log;
            && log <= after && |after| <= |log| + 1
            && (|after| > |log| ==>
                  || (step.Send? && !after[|log|].cause.Explicit?)
                  || ((step.Flush? || step.LastFlush?) && after[|log|].cause.Explicit?))
  {
    if step.Send? {
      CausesAreTrue(s.sender, s.worker.span, step.accepts);
    }
  }

  /** Every batch carries the process record of the spans offered, if these have one in common. */
  ghost predicate OneProcess(s: State, processSize: nat) {
    && (forall i | 0 <= i < |s.queue| :: s.queue[i].processSize == processSize)
    && (s.worker.Sending? ==> s.worker.span.processSize == processSize)
    && (s.sender.hasProcess ==> s.sender.processSize == processSize)
    && (s.sender.buffer != [] ==> s.sender.hasProcess)
    && (forall i | 0 <= i < |s.history.log| :: s.history.log[i].batch.processSize == processSize)
  }

  lemma StepKeepsOneProcess(s: State, step: Step, processSize: nat)
    requires Enabled(s, step) && OneProcess(s, processSize)
    requires step.Report? ==> step.processSize == processSize
    ensures OneProcess(Next(s, step), processSize)
  {
  }

  lemma {:induction false} BatchesCarryTheProcess(s: State, steps: seq<Step>, t: State, processSize: nat)
    requires OneProcess(s, processSize) && Runs(s, steps, t)
    requires forall i | 0 <= i < |steps| && steps[i].Report? :: steps[i].processSize == processSize
    ensures OneProcess(t, processSize)
    decreases |steps|
  {
    if steps != [] {
      StepKeepsOneProcess(s, steps[0], processSize);
      BatchesCarryTheProcess(Next(s, steps[0]), steps[1..], t, processSize);
    }
  }

  /** The atomic counter lags the queue by exactly the reporters between push and increment. */
  lemma QueueLengthAgrees(s: State)
    requires Reachable(s)
    ensures s.queueLength + s.inFlight == |s.queue|
    ensures s.queue != [] ==> |s.queue| <= s.fixedQueueSize
  {
    ReachableInv(s);
  }

  /** At most one close joins, and never are two threads inside the sender. */
  lemma SenderIsNeverShared(s: State)
    requires Reachable(s)
    ensures s.history.joins <= 1
    ensures !((s.worker.Sending? || s.worker.Flushing?) && s.closer.FinalFlush?)
  {
    ReachableInv(s);
  }

  lemma {:induction false} AbsentWhenAllLater(spans: seq<Span>, n: nat, from: nat)
    requires n < from && forall i | 0 <= i < |spans| :: from <= spans[i].serial
    ensures Count(spans, n) == 0
  {
    if spans != [] {
      AbsentWhenAllLater(spans[..|spans| - 1], n, from);
    }
  }

  /** Once the joining close has returned, a span offered before the worker's exit was
      dropped at a full queue, too large, or delivered exactly once, if the transport never
      refused a batch; otherwise it may also be displaced or still buffered. */
  lemma CloseDeliversEverything(s: State, n: nat)
    requires Reachable(s) && s.closer.Closed? && n < s.history.offeredBeforeExit
    ensures Count(s.history.dropped, n) + Count(s.history.rejected, n) + Deliveries(s.history.log, n)
            + Count(s.history.displaced, n) + Count(s.sender.buffer, n) == 1
    ensures AlwaysAccepted(s.history.log) ==>
            Count(s.history.dropped, n) + Count(s.history.rejected, n) + Deliveries(s.history.log, n) == 1
  {
    ReachableInv(s);
    EverySpanIsInOnePlace(s, n);
    AbsentWhenAllLater(s.queue, n, s.history.offeredBeforeExit);
  }

  lemma {:induction false} ExitedQueueOnlyGrows(s: State, steps: seq<Step>, t: State)
    requires s.worker.Exited? && Runs(s, steps, t)
    ensures t.worker.Exited? && s.queue <= t.queue && s.history.dropped <= t.history.dropped
    ensures t.history.offeredBeforeExit == s.history.offeredBeforeExit && s.history.offered <= t.history.offered
    decreases |steps|
  {
    if steps != [] {
      ExitedQueueOnlyGrows(Next(s, steps[0]), steps[1..], t);
    }
  }

  lemma {:induction false} ReachableLater(s: State, steps: seq<Step>, t: State)
    requires Reachable(s) && Runs(s, steps, t)
    ensures Reachable(t)
    decreases |steps|
  {
    if steps != [] {
      NextIsReachable(s, steps[0]);
      ReachableLater(Next(s, steps[0]), steps[1..], t);
    }
  }

  lemma UnhandledIsUndelivered(s: State, n: nat)
    requires Reachable(s) && Handled(s, n) == 0
    ensures Count(s.history.rejected, n) + Deliveries(s.history.log, n) + Count(s.history.displaced, n)
            + Count(s.sender.buffer, n) == 0
  {
    CountConcat(Emitted(s.history.log), s.sender.buffer, n);
    EmittedAreDelivered(s.history.log, n);
  }

  /** The other half: a span offered after the worker's exit is dropped or queued, stays where it is
      in every later state, and is never delivered, nor otherwise dealt with. */
  lemma LateSpansAreStranded(s: State, steps: seq<Step>, t: State, n: nat)
    requires Reachable(s) && s.worker.Exited? && s.history.offeredBeforeExit <= n < s.history.offered
    requires Runs(s, steps, t)
    ensures s.queue <= t.queue && s.history.dropped <= t.history.dropped
    ensures Count(s.history.dropped, n) + Count(s.queue, n) == 1
    ensures Count(t.history.dropped, n) == Count(s.history.dropped, n) && Count(t.queue, n) == Count(s.queue, n)
    ensures Count(t.history.rejected, n) + Deliveries(t.history.log, n) + Count(t.history.displaced, n)
            + Count(t.sender.buffer, n) == 0
  {
    ExitedQueueOnlyGrows(s, steps, t);
    ReachableLater(s, steps, t);
    LateSpanIsDroppedOrQueued(s, n);
    LateSpanIsDroppedOrQueued(t, n);
    CountGrows(s.queue, t.queue, n);
    CountGrows(s.history.dropped, t.history.dropped, n);
  }

  lemma LateSpanIsDroppedOrQueued(s: State, n: nat)
    requires Reachable(s) && s.worker.Exited? && s.history.offeredBeforeExit <= n < s.history.offered
    ensures Count(s.history.dropped, n) + Count(s.queue, n) == 1
    ensures Count(s.history.rejected, n) + Deliveries(s.history.log, n) + Count(s.history.displaced, n)
            + Count(s.sender.buffer, n) == 0
  {
    ReachableInv(s);
    EverySpanIsInOnePlace(s, n);
    UnhandledIsUndelivered(s, n);
  }

  lemma CountGrows(spans: seq<Span>, more: seq<Span>, n: nat)
    requires spans <= more
    ensures Count(spans, n) <= Count(more, n)
  {
    assert more == spans + more[|spans|..];
    CountConcat(spans, more[|spans|..], n);
  }

  /** Queueing such a span raises no counter. */
  lemma StrandingIsSilent(s: State, size: nat, processSize: nat)
    requires LockFree(s) && |s.queue| < s.fixedQueueSize
    ensures var t := Next(s, Report(size, processSize));
            && t.history.reporterSuccess == s.history.reporterSuccess
            && t.history.reporterFailure == s.history.reporterFailure
            && t.history.reporterDropped == s.history.reporterDropped
            && t.queue == s.queue + [Span(s.history.offered, size, processSize)]
  {
  }

  // ---- The worker terminates ----

  predicate WorkerStep(step: Step) {
    step.Take? || step.Send? || step.TimeOut? || step.Idle? || step.Flush? || step.Exit?
  }

  /** Steps the worker still needs once the reporter is stopped. */
  function Remaining(s: State): nat {
    match s.worker
    case Exited => 0
    case Waiting => 2 * |s.queue| + 1
    case _ => 2 * |s.queue| + 2
  }

  function WorkerSteps(steps: seq<Step>): nat {
    if steps == [] then 0
    else (if WorkerStep(steps[0]) then 1 else 0) + WorkerSteps(steps[1..])
  }

  function Reports(steps: seq<Step>): nat {
    if steps == [] then 0
    else (if steps[0].Report? then 1 else 0) + Reports(steps[1..])
  }

  /** After close began, the worker needs at most two steps more for each new report, whatever the
      other threads do in between; with no new reports, each worker step brings the exit one step
      nearer. */
  lemma {:induction false} DrainTerminates(s: State, steps: seq<Step>, t: State)
    requires !s.running && Runs(s, steps, t)
    ensures !t.running && WorkerSteps(steps) + Remaining(t) <= Remaining(s) + 2 * Reports(steps)
    ensures Reports(steps) == 0 ==> WorkerSteps(steps) + Remaining(t) == Remaining(s)
    decreases |steps|
  {
    if steps != [] {
      DrainTerminates(Next(s, steps[0]), steps[1..], t);
    }
  }

  /** The stopped worker can always go on, and the closing thread after it, so close returns. */
  lemma {:induction false} ShutdownCompletes(s: State, accepts: bool) returns (steps: seq<Step>, t: State)
    requires !s.running && s.closer.Joining?
    ensures Runs(s, steps, t) && t.closer.Closed?
    ensures |steps| == Remaining(s) + 2
    decreases Remaining(s)
  {
    if s.worker.Exited? {
      steps := [Join, LastFlush(accepts)];
      var joined := Next(s, Join);
      t := Next(joined, LastFlush(accepts));
      assert steps[1..] == [LastFlush(accepts)];
      assert Runs(t, steps[1..][1..], t);
      assert Runs(joined, steps[1..], t);
    } else {
      var step :=
        match s.worker
        case Waiting => if s.queue == [] then Exit else Take
        case Sending(_) => Send(accepts)
        case Flushing => Step.Flush(accepts);
      var rest;
      rest, t := ShutdownCompletes(Next(s, step), accepts);
      steps := [step] + rest;
      assert steps[1..] == rest;
    }
  }
}
