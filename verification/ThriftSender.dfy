/**
 The batching sender: it collects serialised spans and hands them to the transport in
 packets, by byte accounting.  Sizes are the serialised sizes of spans and of the process
 record; the transport either takes a whole batch or throws.
 */
module ThriftSending {

  /** Bytes reserved for the envelope of a batch (kEmitBatchOverhead). */
  const EMIT_BATCH_OVERHEAD := 30

  /** A span as the sender sees it.  `serial` tells apart spans offered at different times,
      `processSize` is the size of the process record made from the span's tracer. */
  datatype Span = Span(serial: nat, size: nat, processSize: nat)

  datatype Batch = Batch(processSize: nat, spans: seq<Span>)

  /** Why a batch left: an append of `next` bytes that no longer fitted, an append that filled
      the buffer exactly, or a call of flush from outside. */
  datatype Cause = Overflow(next: nat) | ExactHit | Explicit

  /** One call of emitBatch: `accepted` is false when it threw. */
  datatype HandOff = HandOff(batch: Batch, cause: Cause, accepted: bool)

  datatype Outcome = Returned(flushed: nat) | Threw(numFailed: nat)

  datatype Sender = Sender(
    maxPacketSize: int,
    hasProcess: bool,
    processSize: nat,
    maxSpanBytes: int,
    byteBufferSize: int,
    buffer: seq<Span>)

  /** The effect of one call: the new sender, what the caller got, what the transport got. */
  datatype Call = Call(sender: Sender, outcome: Outcome, handed: seq<HandOff>)

  function NewSender(maxPacketSize: int): Sender {
    Sender(maxPacketSize, false, 0, 0, 0, [])
  }

  function TotalBytes(spans: seq<Span>): nat {
    if spans == [] then 0 else TotalBytes(spans[..|spans| - 1]) + spans[|spans| - 1].size
  }

  /** All spans of the batches the transport took, oldest first. */
  function Emitted(log: seq<HandOff>): seq<Span> {
    if log == [] then []
    else
      var last := log[|log| - 1];
      Emitted(log[..|log| - 1]) + if last.accepted then last.batch.spans else []
  }

  // ---- What append and flush do ----

  function Prepare(s: Sender, span: Span): Sender {
    if s.hasProcess then s
    else s.(hasProcess := true, processSize := span.processSize,
            maxSpanBytes := s.maxPacketSize - span.processSize - EMIT_BATCH_OVERHEAD)
  }

  function FlushCall(s: Sender, cause: Cause, accepts: bool): Call {
    if s.buffer == [] then Call(s, Returned(0), [])
    else
      var handOff := HandOff(Batch(s.processSize, s.buffer), cause, accepts);
      if accepts then
        Call(s.(buffer := [], byteBufferSize := s.processSize), Returned(|s.buffer|), [handOff])
      else
        Call(s, Threw(|s.buffer|), [handOff])
  }

  function Grow(s: Sender, span: Span): Sender {
    s.(byteBufferSize := s.byteBufferSize + span.size)
  }

  function Push(s: Sender, span: Span): Sender {
    s.(buffer := s.buffer + [span])
  }

  function Restart(s: Sender, span: Span): Sender {
    Push(s, span).(byteBufferSize := span.size + s.processSize)
  }

  function AppendCall(s0: Sender, span: Span, accepts: bool): Call {
    var s := Prepare(s0, span);
    if span.size > s.maxSpanBytes then Call(s, Threw(1), [])
    else if s.byteBufferSize + span.size < s.maxSpanBytes then
      Call(Push(Grow(s, span), span), Returned(0), [])
    else if s.byteBufferSize + span.size == s.maxSpanBytes then
      FlushCall(Push(Grow(s, span), span), ExactHit, accepts)
    else
      var flushed := FlushCall(Grow(s, span), Overflow(span.size), accepts);
      if flushed.outcome.Threw? then flushed
      else flushed.(sender := Restart(flushed.sender, span))
  }

  // ---- The accounting invariant and what it gives ----

  /** Holds in every reachable state, also after throwing flushes: the counter never
      under-counts the buffer, and the buffer always fits a packet. */
  ghost predicate Accounted(s: Sender) {
    && (s.hasProcess ==> s.maxSpanBytes == s.maxPacketSize - s.processSize - EMIT_BATCH_OVERHEAD)
    && (!s.hasProcess ==> s.processSize == 0 && s.maxSpanBytes == 0 && s.byteBufferSize == 0 && s.buffer == [])
    && TotalBytes(s.buffer) <= s.byteBufferSize
    && (s.buffer != [] ==> TotalBytes(s.buffer) <= s.maxSpanBytes)
  }

  /** The bytes of the spans lost to refused overflow flushes since the transport last took a
      batch: their sizes are still in the counter. */
  function Excess(log: seq<HandOff>): nat {
    if log == [] then 0
    else
      var last := log[|log| - 1];
      if last.accepted then 0
      else Excess(log[..|log| - 1]) + if last.cause.Overflow? then last.cause.next else 0
  }

  predicate EverAccepted(log: seq<HandOff>) {
    if log == [] then false else log[|log| - 1].accepted || EverAccepted(log[..|log| - 1])
  }

  /** What the counter holds besides the buffered bytes: the excess, and the process record once
      a flush has reset the counter. */
  function Surplus(log: seq<HandOff>, processSize: nat): nat {
    Excess(log) + if EverAccepted(log) then processSize else 0
  }

  /** The counter, exactly. */
  ghost predicate Counted(s: Sender, log: seq<HandOff>) {
    && s.byteBufferSize == TotalBytes(s.buffer) + Surplus(log, s.processSize)
    && (Excess(log) > 0 ==> s.buffer != [])
    && (!s.hasProcess ==> log == [])
    && (forall i | 0 <= i < |log| :: log[i].batch.processSize == s.processSize)
  }

  /** A batch and its envelope fit in one packet. */
  ghost predicate FitsPacket(maxPacketSize: int, b: Batch) {
    b.spans != [] && b.processSize + TotalBytes(b.spans) + EMIT_BATCH_OVERHEAD <= maxPacketSize
  }

  /** An automatically flushed batch, with what the counter held besides it, could not have
      taken the next span as well, or left no byte free. */
  ghost predicate Full(maxPacketSize: int, h: HandOff, surplus: nat) {
    var room := maxPacketSize - h.batch.processSize - EMIT_BATCH_OVERHEAD;
    match h.cause
    case Overflow(next) => TotalBytes(h.batch.spans) + surplus + next > room
    case ExactHit => TotalBytes(h.batch.spans) + surplus == room
    case Explicit => true
  }

  ghost predicate AllFit(maxPacketSize: int, log: seq<HandOff>) {
    forall i | 0 <= i < |log| :: FitsPacket(maxPacketSize, log[i].batch)
  }

  ghost predicate AllFull(maxPacketSize: int, log: seq<HandOff>) {
    forall i | 0 <= i < |log| :: Full(maxPacketSize, log[i], Surplus(log[..i], log[i].batch.processSize))
  }

  lemma TotalBytesPush(spans: seq<Span>, span: Span)
    ensures TotalBytes(spans + [span]) == TotalBytes(spans) + span.size
  {
    assert (spans + [span])[..|spans|] == spans;
  }

  lemma EmittedPush(log: seq<HandOff>, h: HandOff)
    ensures Emitted(log + [h]) == Emitted(log) + if h.accepted then h.batch.spans else []
  {
    assert (log + [h])[..|log|] == log;
  }

  lemma {:induction false} FlushStaysAccounted(s: Sender, cause: Cause, accepts: bool)
    requires Accounted(s)
    ensures var c := FlushCall(s, cause, accepts);
            && Accounted(c.sender) && c.sender.maxPacketSize == s.maxPacketSize
            && AllFit(s.maxPacketSize, c.handed)
  {
  }

  lemma PushStaysAccounted(s: Sender, span: Span)
    requires Accounted(s) && s.hasProcess
    ensures s.byteBufferSize + span.size <= s.maxSpanBytes ==> Accounted(Push(Grow(s, span), span))
    ensures s.buffer == [] && span.size <= s.maxSpanBytes ==> Accounted(Restart(s, span))
  {
    TotalBytesPush(s.buffer, span);
  }

  /** Append keeps the accounting, throwing or not, and a batch it hands over fits a packet. */
  lemma {:induction false} AppendStaysAccounted(s: Sender, span: Span, accepts: bool)
    requires Accounted(s)
    ensures var c := AppendCall(s, span, accepts);
            && Accounted(c.sender) && c.sender.maxPacketSize == s.maxPacketSize
            && AllFit(s.maxPacketSize, c.handed)
  {
    var p := Prepare(s, span);
    assert Accounted(p);
    if span.size <= p.maxSpanBytes {
      PushStaysAccounted(p, span);
      if p.byteBufferSize + span.size <= p.maxSpanBytes {
        FlushStaysAccounted(Push(Grow(p, span), span), ExactHit, accepts);
      } else {
        FlushStaysAccounted(Grow(p, span), Overflow(span.size), accepts);
        PushStaysAccounted(FlushCall(Grow(p, span), Overflow(span.size), accepts).sender, span);
      }
    }
  }

  /** What became of the span given to append. */
  datatype Fate = Kept | Rejected | Displaced

  function FateOf(s: Sender, span: Span, accepts: bool): Fate {
    var p := Prepare(s, span);
    if span.size > p.maxSpanBytes then Rejected
    else if p.byteBufferSize + span.size > p.maxSpanBytes && s.buffer != [] && !accepts then Displaced
    else Kept
  }

  /** A displaced span is logged as the one refused overflow hand-off of the call. */
  lemma DisplacementIsLogged(s: Sender, span: Span, accepts: bool)
    ensures var handed := AppendCall(s, span, accepts).handed;
            if FateOf(s, span, accepts).Displaced? then
              |handed| == 1 && !handed[0].accepted && handed[0].cause == Overflow(span.size)
            else handed == [] || (|handed| == 1 && (handed[0].accepted || !handed[0].cause.Overflow?))
  {
  }

  /** The bytes of spans that fit one packet with a process record of that size. */
  function Room(maxPacketSize: int, processSize: nat): int {
    maxPacketSize - processSize - 30
  }

  /** Append by its branches.  A span that does not fit a packet by itself is refused; one that leaves
      the counter below the room is buffered, and nothing is handed over; one that fills the room is
      buffered and leaves with the buffer; any other one displaces the buffer first, if that is not
      empty. */
  lemma AppendByBranches(s: Sender, span: Span, accepts: bool)
    requires Accounted(s)
    ensures var c := AppendCall(s, span, accepts);
            var process := if s.hasProcess then s.processSize else span.processSize;
            var room, counter := Room(s.maxPacketSize, process), s.byteBufferSize + span.size;
            && c.sender.hasProcess && c.sender.processSize == process
            && (forall i | 0 <= i < |c.handed| :: c.handed[i].batch.processSize == process)
            && (span.size > room ==> c.outcome == Threw(1) && c.handed == [] && c.sender.buffer == s.buffer
                                     && c.sender.byteBufferSize == s.byteBufferSize)
            && (counter < room ==> c.outcome == Returned(0) && c.handed == [] && c.sender.buffer == s.buffer + [span]
                                   && c.sender.byteBufferSize == counter)
            && (span.size <= room && counter == room ==>
                  |c.handed| == 1 && c.handed[0] == HandOff(Batch(process, s.buffer + [span]), ExactHit, accepts))
            && (span.size <= room < counter && s.buffer != [] ==>
                  |c.handed| == 1 && c.handed[0] == HandOff(Batch(process, s.buffer), Overflow(span.size), accepts))
            && (span.size <= room < counter && s.buffer == [] ==> c.handed == [] && c.sender.buffer == [span])
  {
  }

  /** No batch handed over by append is passed off as one asked for, and each one that is asked for is
      named so. */
  lemma CausesAreTrue(s: Sender, span: Span, accepts: bool)
    ensures forall i | 0 <= i < |AppendCall(s, span, accepts).handed| ::
              !AppendCall(s, span, accepts).handed[i].cause.Explicit?
    ensures forall i | 0 <= i < |FlushCall(s, Explicit, accepts).handed| ::
              FlushCall(s, Explicit, accepts).handed[i].cause.Explicit?
  {
  }

  lemma FlushMovesSpans(s: Sender, log: seq<HandOff>, cause: Cause, accepts: bool)
    ensures var c := FlushCall(s, cause, accepts);
            && Emitted(log + c.handed) + c.sender.buffer == Emitted(log) + s.buffer
            && |Emitted(log + c.handed)| ==
               |Emitted(log)| + (if c.outcome.Returned? then c.outcome.flushed else 0)
  {
    assert log + [] == log;
    if s.buffer != [] {
      EmittedPush(log, HandOff(Batch(s.processSize, s.buffer), cause, accepts));
    }
  }

  lemma SpansAssociate(a: seq<Span>, b: seq<Span>, c: seq<Span>)
    ensures (a + b) + c == a + (b + c)
  {
  }

  /** Append loses nothing it does not own up to: a kept span joins the end of the stream
      "emitted, then buffered"; otherwise that stream is unchanged and the call threw. */
  lemma AppendMovesSpans(s: Sender, log: seq<HandOff>, span: Span, accepts: bool)
    ensures var c := AppendCall(s, span, accepts);
            var before := Emitted(log) + s.buffer;
            var after := Emitted(log + c.handed) + c.sender.buffer;
            && after == (if FateOf(s, span, accepts).Kept? then before + [span] else before)
            && (FateOf(s, span, accepts) != Kept ==> c.outcome.Threw?)
            && |Emitted(log + c.handed)| ==
               |Emitted(log)| + (if c.outcome.Returned? then c.outcome.flushed else 0)
  {
    var p := Prepare(s, span);
    assert log + [] == log;
    if span.size > p.maxSpanBytes {
    } else if p.byteBufferSize + span.size <= p.maxSpanBytes {
      SpansAssociate(Emitted(log), s.buffer, [span]);
      FlushMovesSpans(Push(Grow(p, span), span), log, ExactHit, accepts);
    } else {
      var c := FlushCall(Grow(p, span), Overflow(span.size), accepts);
      FlushMovesSpans(Grow(p, span), log, Overflow(span.size), accepts);
      SpansAssociate(Emitted(log + c.handed), c.sender.buffer, [span]);
    }
  }

  lemma SurplusPush(log: seq<HandOff>, h: HandOff)
    ensures Excess(log + [h]) ==
            if h.accepted then 0 else Excess(log) + if h.cause.Overflow? then h.cause.next else 0
    ensures EverAccepted(log + [h]) <==> h.accepted || EverAccepted(log)
  {
    assert (log + [h])[..|log|] == log;
  }

  /** A flush that is no overflow keeps the count; an overflow flush has counted the next span
      before. */
  lemma FlushStaysCounted(s: Sender, log: seq<HandOff>, cause: Cause, accepts: bool)
    requires Counted(s, log) && (s.buffer != [] ==> s.hasProcess)
    ensures var next := if cause.Overflow? then cause.next else 0;
            var c := FlushCall(s.(byteBufferSize := s.byteBufferSize + next), cause, accepts);
            c.handed != [] ==> Counted(c.sender, log + c.handed)
  {
    if s.buffer != [] {
      SurplusPush(log, HandOff(Batch(s.processSize, s.buffer), cause, accepts));
    }
  }

  lemma PushStaysCounted(s: Sender, log: seq<HandOff>, span: Span)
    requires Counted(s, log) && s.hasProcess
    ensures Counted(Push(Grow(s, span), span), log)
    ensures s.buffer == [] && EverAccepted(log) ==> Counted(Restart(s, span), log)
  {
    TotalBytesPush(s.buffer, span);
  }

  lemma FillingAppendStaysCounted(s: Sender, log: seq<HandOff>, span: Span, accepts: bool)
    requires Accounted(s) && Counted(s, log) && s.hasProcess && s.byteBufferSize + span.size == s.maxSpanBytes
    ensures var c := FlushCall(Push(Grow(s, span), span), ExactHit, accepts);
            Counted(c.sender, log + c.handed) && AllFullAfter(s.maxPacketSize, log, c.handed)
  {
    PushStaysCounted(s, log, span);
    FlushStaysCounted(Push(Grow(s, span), span), log, ExactHit, accepts);
  }

  lemma OverflowingAppendStaysCounted(s: Sender, log: seq<HandOff>, span: Span, accepts: bool)
    requires Accounted(s) && Counted(s, log) && s.hasProcess
    requires span.size <= s.maxSpanBytes < s.byteBufferSize + span.size
    ensures var c := AppendCall(s, span, accepts);
            Counted(c.sender, log + c.handed) && AllFullAfter(s.maxPacketSize, log, c.handed)
  {
    var c := FlushCall(Grow(s, span), Overflow(span.size), accepts);
    FlushStaysCounted(s, log, Overflow(span.size), accepts);
    if s.buffer == [] {
      assert log + [] == log;
      TotalBytesPush([], span);
    } else if accepts {
      SurplusPush(log, c.handed[0]);
      PushStaysCounted(c.sender, log + c.handed, span);
    }
  }

  /** The hand-offs of one call, at most one of them, are full. */
  ghost predicate AllFullAfter(maxPacketSize: int, log: seq<HandOff>, handed: seq<HandOff>) {
    forall i | 0 <= i < |handed| :: Full(maxPacketSize, handed[i], Surplus(log, handed[i].batch.processSize))
  }

  /** Append keeps the exact count, throwing or not, and a batch it hands over is full. */
  lemma AppendStaysCounted(s: Sender, log: seq<HandOff>, span: Span, accepts: bool)
    requires Accounted(s) && Counted(s, log)
    ensures var c := AppendCall(s, span, accepts);
            Counted(c.sender, log + c.handed) && AllFullAfter(s.maxPacketSize, log, c.handed)
  {
    var p := Prepare(s, span);
    assert log + [] == log;
    assert AppendCall(p, span, accepts) == AppendCall(s, span, accepts);
    if span.size > p.maxSpanBytes {
    } else if p.byteBufferSize + span.size < p.maxSpanBytes {
      PushStaysCounted(p, log, span);
    } else if p.byteBufferSize + span.size == p.maxSpanBytes {
      FillingAppendStaysCounted(p, log, span, accepts);
    } else {
      OverflowingAppendStaysCounted(p, log, span, accepts);
    }
  }

  /** Any call during which the transport took a batch leaves nothing in the counter but the
      buffered bytes and one process record. */
  lemma SuccessfulHandOffTightens(s: Sender, span: Span, cause: Cause)
    ensures var c := AppendCall(s, span, true);
            c.handed != [] ==> c.sender.byteBufferSize == TotalBytes(c.sender.buffer) + c.sender.processSize
    ensures var c := FlushCall(s, cause, true);
            c.handed != [] ==> c.sender.byteBufferSize == TotalBytes(c.sender.buffer) + c.sender.processSize
  {
    TotalBytesPush([], span);
  }

  // ---- The sender object ----

  class ThriftSender {
    const maxPacketSize: int
    var hasProcess: bool
    var processSize: nat
    var maxSpanBytes: int
    var byteBufferSize: int
    var spanBuffer: seq<Span>
    ghost var handed: seq<HandOff>  // everything the transport was given, in order

    function Contents(): Sender
      reads this
    {
      Sender(maxPacketSize, hasProcess, processSize, maxSpanBytes, byteBufferSize, spanBuffer)
    }

    constructor (maxPacketSize: int)
      ensures Contents() == NewSender(maxPacketSize) && handed == []
    {
      this.maxPacketSize := maxPacketSize;
      hasProcess, processSize := false, 0;
      maxSpanBytes, byteBufferSize := 0, 0;
      spanBuffer := [];
      handed := [];
    }

    method ResetBuffers()
      modifies this`spanBuffer, this`byteBufferSize
      ensures spanBuffer == [] && byteBufferSize == processSize
    {
      spanBuffer := [];
      byteBufferSize := processSize;
    }

    method Flush(ghost cause: Cause, accepts: bool) returns (outcome: Outcome)
      modifies this
      ensures var c := FlushCall(old(Contents()), cause, accepts);
              Contents() == c.sender && outcome == c.outcome && handed == old(handed) + c.handed
    {
      if spanBuffer == [] {
        return Returned(0);
      }
      var batch := Batch(processSize, spanBuffer);
      handed := handed + [HandOff(batch, cause, accepts)];
      if !accepts {
        return Threw(|spanBuffer|);
      }
      ResetBuffers();
      return Returned(|batch.spans|);
    }

    method Append(span: Span, accepts: bool) returns (outcome: Outcome)
      modifies this
      ensures var c := AppendCall(old(Contents()), span, accepts);
              Contents() == c.sender && outcome == c.outcome && handed == old(handed) + c.handed
    {
      if !hasProcess {
        hasProcess := true;
        processSize := span.processSize;
        maxSpanBytes := maxPacketSize - processSize - EMIT_BATCH_OVERHEAD;
      }
      if span.size > maxSpanBytes {
        return Threw(1);
      }
      byteBufferSize := byteBufferSize + span.size;
      if byteBufferSize <= maxSpanBytes {
        spanBuffer := spanBuffer + [span];
        if byteBufferSize < maxSpanBytes {
          return Returned(0);
        }
        outcome := Flush(ExactHit, accepts);
        return;
      }
      outcome := Flush(Overflow(span.size), accepts);
      if outcome.Threw? {
        return;
      }
      spanBuffer := spanBuffer + [span];
      byteBufferSize := span.size + processSize;
    }
  }
}
