/**
 The remote reporter as a system of atomic steps: application threads report spans, one
 worker thread sweeps the queue into the sender, and close shuts both down.  A run is any
 interleaving of the steps, with any pattern of transport failures.
 */
module ReportingPipeline {
  import opened ThriftSending

  /** Where the worker is.  In `Sending` and `Flushing` it holds the queue's lock and is
      inside the sender. */
  datatype Worker = Waiting | Sending(span: Span) | Flushing | Exited

  /** How far the one close call that found the reporter running has come.  In `FinalFlush`
      it has joined the worker and is inside the sender. */
  datatype Closer = NotCalled | Joining | FinalFlush | Closed

  /** What has happened, beyond what the reporter itself stores. */
  datatype History = History(
    offered: nat,            // calls of report that reached the queue check
    dropped: seq<Span>,      // found the queue full
    rejected: seq<Span>,     // too large for a packet
    displaced: seq<Span>,    // lost to a throwing overflow flush
    log: seq<HandOff>,       // every emitBatch call
    joins: nat,              // close calls that went on to join the worker
    offeredBeforeExit: nat,  // value of `offered` when the worker exited
    reporterSuccess: nat,
    reporterFailure: nat,
    reporterDropped: nat)

  datatype State = State(
    fixedQueueSize: int,
    queue: seq<Span>,
    queueLength: int,        // the atomic counter
    inFlight: nat,           // reporters that pushed but have not yet incremented the counter
    running: bool,
    worker: Worker,
    closer: Closer,
    sender: Sender,
    history: History)

  /** Steps of the application threads, of the worker and of the closing thread.  `accepts`
      is the transport's answer if the step reaches it. */
  datatype Step =
    | Report(size: nat, processSize: nat)
    | Increment
    | Take
    | Send(accepts: bool)
    | TimeOut
    | Idle
    | Flush(accepts: bool)
    | Exit
    | Close
    | Join
    | LastFlush(accepts: bool)

  function Initial(fixedQueueSize: int, maxPacketSize: int): State {
    State(fixedQueueSize, [], 0, 0, true, Waiting, NotCalled, NewSender(maxPacketSize),
          History(0, [], [], [], [], 0, 0, 0, 0, 0))
  }

  predicate LockFree(s: State) {
    s.worker.Waiting? || s.worker.Exited?
  }

  predicate Enabled(s: State, step: Step) {
    match step
    case Report(_, _) => LockFree(s)
    case Increment => s.inFlight > 0
    case Take => s.worker.Waiting? && s.queue != []
    case Send(_) => s.worker.Sending?
    case TimeOut => s.worker.Waiting? && s.running && s.queue == []
    case Idle => s.worker.Waiting? && s.running && s.queue == []
    case Flush(_) => s.worker.Flushing?
    case Exit => s.worker.Waiting? && !s.running && s.queue == []
    case Close => LockFree(s)
    case Join => s.closer.Joining? && s.worker.Exited?
    case LastFlush(_) => s.closer.FinalFlush?
  }

  /** The counters and the log after a sender call (sendSpan and flush). */
  function Account(h: History, c: Call): History {
    var logged := h.(log := h.log + c.handed);
    match c.outcome
    case Returned(flushed) => logged.(reporterSuccess := h.reporterSuccess + flushed)
    case Threw(numFailed) => logged.(reporterFailure := h.reporterFailure + numFailed)
  }

  function Appended(s: State, span: Span, accepts: bool): State {
    var c, h := AppendCall(s.sender, span, accepts), s.history;
    var accounted := Account(h, c);
    s.(sender := c.sender,
       history := match FateOf(s.sender, span, accepts)
         case Kept => accounted
         case Rejected => accounted.(rejected := h.rejected + [span])
         case Displaced => accounted.(displaced := h.displaced + [span]))
  }

  function Flushed(s: State, accepts: bool): State {
    var c := FlushCall(s.sender, Explicit, accepts);
    s.(sender := c.sender, history := Account(s.history, c))
  }

  function Next(s: State, step: Step): State
    requires Enabled(s, step)
  {
    var h := s.history;
    match step
    case Report(size, processSize) =>
      var span := Span(h.offered, size, processSize);
      var offered := h.(offered := h.offered + 1);
      if |s.queue| < s.fixedQueueSize then
        s.(queue := s.queue + [span], inFlight := s.inFlight + 1, history := offered)
      else
        s.(history := offered.(dropped := h.dropped + [span], reporterDropped := h.reporterDropped + 1))
    case Increment =>
      s.(queueLength := s.queueLength + 1, inFlight := s.inFlight - 1)
    case Take =>
      s.(queue := s.queue[1..], queueLength := s.queueLength - 1, worker := Sending(s.queue[0]))
    case Send(accepts) =>
      Appended(s, s.worker.span, accepts).(worker := Waiting)
    case TimeOut => s.(worker := Flushing)
    case Idle => s
    case Flush(accepts) => Flushed(s, accepts).(worker := Waiting)
    case Exit => s.(worker := Exited, history := h.(offeredBeforeExit := h.offered))
    case Close =>
      if s.running then s.(running := false, closer := Joining, history := h.(joins := h.joins + 1))
      else s
    case Join => s.(closer := FinalFlush)
    case LastFlush(accepts) => Flushed(s, accepts).(closer := Closed)
  }

  /** `t` is reached from `s` by the steps, each enabled where it is taken. */
  ghost predicate Runs(s: State, steps: seq<Step>, t: State)
    decreases |steps|
  {
    if steps == [] then s == t
    else Enabled(s, steps[0]) && Runs(Next(s, steps[0]), steps[1..], t)
  }

  ghost predicate Reachable(s: State) {
    exists size, packet, steps :: Runs(Initial(size, packet), steps, s)
  }

  lemma {:induction false} RunsExtend(s: State, steps: seq<Step>, t: State, step: Step)
    requires Runs(s, steps, t) && Enabled(t, step)
    ensures Runs(s, steps + [step], Next(t, step))
    decreases |steps|
  {
    var longer := steps + [step];
    if steps == [] {
      assert longer[1..] == [];
    } else {
      RunsExtend(Next(s, steps[0]), steps[1..], t, step);
      assert longer[1..] == steps[1..] + [step];
    }
  }

  lemma {:induction false} RunsJoin(s: State, first: seq<Step>, t: State, second: seq<Step>, u: State)
    requires Runs(s, first, t) && Runs(t, second, u)
    ensures Runs(s, first + second, u)
    decreases |first|
  {
    var both := first + second;
    if first == [] {
      assert both == second;
    } else {
      RunsJoin(Next(s, first[0]), first[1..], t, second, u);
      assert both[1..] == first[1..] + second;
    }
  }

  // ---- Where the spans are ----

  function InHand(s: State): seq<Span> {
    if s.worker.Sending? then [s.worker.span] else []
  }

  /** Everything accepted and not lost, from the first span emitted to the last one queued. */
  function Stream(s: State): seq<Span> {
    Emitted(s.history.log) + s.sender.buffer + InHand(s) + s.queue
  }

  /** How often the span offered as number `n` occurs. */
  function Count(spans: seq<Span>, n: nat): nat {
    if spans == [] then 0
    else Count(spans[..|spans| - 1], n) + if spans[|spans| - 1].serial == n then 1 else 0
  }

  ghost predicate InOrder(spans: seq<Span>) {
    forall i, j | 0 <= i < j < |spans| :: spans[i].serial < spans[j].serial
  }

  /** Where all offered spans are, with the stream as one place. */
  datatype Ledger = Ledger(
    offered: nat,
    dropped: seq<Span>,
    rejected: seq<Span>,
    displaced: seq<Span>,
    stream: seq<Span>)

  function LedgerOf(s: State): Ledger {
    Ledger(s.history.offered, s.history.dropped, s.history.rejected, s.history.displaced, Stream(s))
  }

  function Tally(l: Ledger, n: nat): nat {
    Count(l.dropped, n) + Count(l.rejected, n) + Count(l.displaced, n) + Count(l.stream, n)
  }

  /** Every serial handed out so far occurs once in the ledger, and no other does. */
  ghost predicate Balanced(l: Ledger) {
    && (forall n: nat :: Tally(l, n) == if n < l.offered then 1 else 0)
    && (forall i | 0 <= i < |l.stream| :: l.stream[i].serial < l.offered)
    && InOrder(l.stream)
  }

  /** Total of the spans of batches the transport refused, counted once per refusal. */
  function Refused(log: seq<HandOff>): nat {
    if log == [] then 0
    else
      var last := log[|log| - 1];
      Refused(log[..|log| - 1]) + if last.accepted then 0 else |last.batch.spans|
  }

  function Displacements(log: seq<HandOff>): nat {
    if log == [] then 0
    else
      var last := log[|log| - 1];
      Displacements(log[..|log| - 1]) + if !last.accepted && last.cause.Overflow? then 1 else 0
  }

  function DisplacedBytes(log: seq<HandOff>): nat {
    if log == [] then 0
    else
      var last := log[|log| - 1];
      DisplacedBytes(log[..|log| - 1]) + if !last.accepted && last.cause.Overflow? then last.cause.next else 0
  }

  // ---- The invariant ----

  ghost predicate QueueAgrees(s: State) {
    && s.queueLength + s.inFlight == |s.queue|
    && (|s.queue| == 0 || |s.queue| <= s.fixedQueueSize)
  }

  ghost predicate ProtocolKept(s: State) {
    && (s.running <==> s.closer.NotCalled?)
    && (s.worker.Exited? ==> !s.running)
    && (s.closer.FinalFlush? || s.closer.Closed? ==> s.worker.Exited?)
    && s.history.joins == (if s.running then 0 else 1)
  }

  ghost predicate SpansConserved(s: State) {
    Balanced(LedgerOf(s))
  }

  ghost predicate MetricsMatch(s: State) {
    && s.history.reporterSuccess == |Emitted(s.history.log)|
    && s.history.reporterFailure == |s.history.rejected| + Refused(s.history.log)
    && s.history.reporterDropped == |s.history.dropped|
  }

  ghost predicate PacketsFit(s: State) {
    && Accounted(s.sender)
    && AllFit(s.sender.maxPacketSize, s.history.log)
  }

  ghost predicate BatchesFull(s: State) {
    Counted(s.sender, s.history.log) && AllFull(s.sender.maxPacketSize, s.history.log)
  }

  /** Every span displaced is logged as a refused overflow flush. */
  ghost predicate LossesLogged(s: State) {
    && |s.history.displaced| == Displacements(s.history.log)
    && TotalBytes(s.history.displaced) == DisplacedBytes(s.history.log)
  }

  ghost predicate AlwaysAccepted(log: seq<HandOff>) {
    forall i | 0 <= i < |log| :: log[i].accepted
  }

  /** After the worker's exit only new spans are queued; with a transport that never refused,
      nothing is displaced and the last flush leaves nothing behind. */
  ghost predicate ShutdownKept(s: State) {
    && s.history.offeredBeforeExit <= s.history.offered
    && (s.worker.Exited? ==> forall i | 0 <= i < |s.queue| :: s.history.offeredBeforeExit <= s.queue[i].serial)
    && (AlwaysAccepted(s.history.log) ==> s.history.displaced == [])
    && (AlwaysAccepted(s.history.log) && s.closer.Closed? ==> s.sender.buffer == [])
  }

  /** What a closed reporter leaves in the sender's buffer is what its last flush was refused. */
  ghost predicate BufferRefused(s: State) {
    s.closer.Closed? && s.sender.buffer != [] ==>
      var n := |s.history.log| - 1;
      && n >= 0 && !s.history.log[n].accepted
      && s.history.log[n].cause.Explicit? && s.history.log[n].batch.spans == s.sender.buffer
  }

  /** How often a span has got as far as the sender. */
  function Handled(s: State, n: nat): nat {
    Count(s.history.rejected, n) + Count(s.history.displaced, n) + Count(Emitted(s.history.log) + s.sender.buffer, n)
  }

  /** Spans offered after the worker's exit never get to the sender. */
  ghost predicate LateUnhandled(s: State) {
    s.worker.Exited? ==> forall n: nat | n >= s.history.offeredBeforeExit :: Handled(s, n) == 0
  }

  ghost predicate Inv(s: State) {
    && QueueAgrees(s)
    && ProtocolKept(s)
    && SpansConserved(s)
    && MetricsMatch(s)
    && PacketsFit(s)
    && BatchesFull(s)
    && LossesLogged(s)
    && ShutdownKept(s)
    && BufferRefused(s)
    && LateUnhandled(s)
  }

  // ---- Facts about serials and ledgers ----

  lemma CountPush(spans: seq<Span>, span: Span, n: nat)
    ensures Count(spans + [span], n) == Count(spans, n) + if span.serial == n then 1 else 0
  {
    assert (spans + [span])[..|spans|] == spans;
  }

  lemma {:induction false} CountConcat(a: seq<Span>, b: seq<Span>, n: nat)
    ensures Count(a + b, n) == Count(a, n) + Count(b, n)
    decreases |b|
  {
    if b == [] {
      assert a + b == a;
    } else {
      var front, last := b[..|b| - 1], b[|b| - 1];
      CountConcat(a, front, n);
      assert a + b == (a + front) + [last];
      CountPush(a + front, last, n);
    }
  }

  lemma RefusedPush(log: seq<HandOff>, h: HandOff)
    ensures Refused(log + [h]) == Refused(log) + if h.accepted then 0 else |h.batch.spans|
  {
    assert (log + [h])[..|log|] == log;
  }

  lemma AcceptBalances(l: Ledger, span: Span)
    requires Balanced(l) && span.serial == l.offered
    ensures Balanced(l.(offered := l.offered + 1, stream := l.stream + [span]))
  {
    var m := l.(offered := l.offered + 1, stream := l.stream + [span]);
    forall n: nat
      ensures Tally(m, n) == Tally(l, n) + if n == l.offered then 1 else 0
    {
      CountPush(l.stream, span, n);
    }
  }

  lemma DropBalances(l: Ledger, span: Span)
    requires Balanced(l) && span.serial == l.offered
    ensures Balanced(l.(offered := l.offered + 1, dropped := l.dropped + [span]))
  {
    var m := l.(offered := l.offered + 1, dropped := l.dropped + [span]);
    forall n: nat
      ensures Tally(m, n) == Tally(l, n) + if n == l.offered then 1 else 0
    {
      CountPush(l.dropped, span, n);
    }
  }

  lemma RemovalCounts(front: seq<Span>, span: Span, back: seq<Span>, n: nat)
    ensures Count(front + [span] + back, n) == Count(front + back, n) + if span.serial == n then 1 else 0
  {
    CountPush(front, span, n);
    CountConcat(front + [span], back, n);
    CountConcat(front, back, n);
  }

  lemma RemovalKeepsOrder(front: seq<Span>, span: Span, back: seq<Span>, bound: nat)
    requires var all := front + [span] + back;
             InOrder(all) && forall i | 0 <= i < |all| :: all[i].serial < bound
    ensures InOrder(front + back)
    ensures forall i | 0 <= i < |front + back| :: (front + back)[i].serial < bound
  {
    var all := front + [span] + back;
    forall i | 0 <= i < |front + back|
      ensures (front + back)[i] == all[if i < |front| then i else i + 1]
    {
    }
  }

  lemma RejectBalances(l: Ledger, front: seq<Span>, span: Span, back: seq<Span>)
    requires Balanced(l) && l.stream == front + [span] + back
    ensures Balanced(l.(rejected := l.rejected + [span], stream := front + back))
  {
    RemovalKeepsOrder(front, span, back, l.offered);
    var m := l.(rejected := l.rejected + [span], stream := front + back);
    forall n: nat ensures Tally(m, n) == Tally(l, n) {
      CountPush(l.rejected, span, n);
      RemovalCounts(front, span, back, n);
    }
  }

  lemma DisplaceBalances(l: Ledger, front: seq<Span>, span: Span, back: seq<Span>)
    requires Balanced(l) && l.stream == front + [span] + back
    ensures Balanced(l.(displaced := l.displaced + [span], stream := front + back))
  {
    RemovalKeepsOrder(front, span, back, l.offered);
    var m := l.(displaced := l.displaced + [span], stream := front + back);
    forall n: nat ensures Tally(m, n) == Tally(l, n) {
      CountPush(l.displaced, span, n);
      RemovalCounts(front, span, back, n);
    }
  }

  // ---- Each step keeps the invariant ----

  lemma ReportConserves(s: State, step: Step)
    requires SpansConserved(s) && step.Report? && Enabled(s, step)
    ensures SpansConserved(Next(s, step))
  {
    var t, span := Next(s, step), Span(s.history.offered, step.size, step.processSize);
    if |s.queue| < s.fixedQueueSize {
      AcceptBalances(LedgerOf(s), span);
      assert Stream(t) == Stream(s) + [span];
    } else {
      DropBalances(LedgerOf(s), span);
      assert Stream(t) == Stream(s);
    }
  }

  lemma TakeConserves(s: State)
    requires SpansConserved(s) && Enabled(s, Take)
    ensures SpansConserved(Next(s, Take))
  {
    assert s.queue == [s.queue[0]] + s.queue[1..];
    assert Stream(Next(s, Take)) == Stream(s);
  }

  lemma FateBalances(l: Ledger, m: Ledger, front: seq<Span>, span: Span, back: seq<Span>, fate: Fate)
    requires Balanced(l) && l.stream == front + [span] + back
    requires match fate
             case Kept => m == l
             case Rejected => m == l.(rejected := l.rejected + [span], stream := front + back)
             case Displaced => m == l.(displaced := l.displaced + [span], stream := front + back)
    ensures Balanced(m)
  {
    match fate
    case Kept =>
    case Rejected => RejectBalances(l, front, span, back);
    case Displaced => DisplaceBalances(l, front, span, back);
  }

  lemma SendConserves(s: State, accepts: bool)
    requires SpansConserved(s) && s.worker.Sending?
    ensures SpansConserved(Next(s, Send(accepts)))
  {
    var t, span := Next(s, Send(accepts)), s.worker.span;
    var front := Emitted(s.history.log) + s.sender.buffer;
    AppendMovesSpans(s.sender, s.history.log, span, accepts);
    assert t.history.log == s.history.log + AppendCall(s.sender, span, accepts).handed;
    var after := Emitted(t.history.log) + t.sender.buffer;
    assert after == if FateOf(s.sender, span, accepts).Kept? then front + [span] else front;
    assert Stream(t) == after + s.queue by {
      assert InHand(t) == [];
      assert after + [] == after;
    }
    FateBalances(LedgerOf(s), LedgerOf(t), front, span, s.queue, FateOf(s.sender, span, accepts));
  }

  lemma StepConserves(s: State, step: Step)
    requires SpansConserved(s) && Enabled(s, step)
    ensures SpansConserved(Next(s, step))
  {
    match step
    case Report(_, _) => ReportConserves(s, step);
    case Take => TakeConserves(s);
    case Send(accepts) => SendConserves(s, accepts);
    case Flush(accepts) =>
      FlushMovesSpans(s.sender, s.history.log, Explicit, accepts);
      assert Stream(Next(s, step)) == Stream(s);
    case LastFlush(accepts) =>
      FlushMovesSpans(s.sender, s.history.log, Explicit, accepts);
      assert Stream(Next(s, step)) == Stream(s);
    case _ => assert Stream(Next(s, step)) == Stream(s);
  }

  /** The counters after any call that returned the number of spans it emitted or threw the
      number of spans it failed on. */
  lemma MetricsAfter(s: State, c: Call, rejected: nat)
    requires MetricsMatch(s) && |c.handed| <= 1
    requires |Emitted(s.history.log + c.handed)| ==
             |Emitted(s.history.log)| + if c.outcome.Returned? then c.outcome.flushed else 0
    requires c.outcome.Returned? ==> rejected == 0 && (c.handed != [] ==> c.handed[0].accepted)
    requires c.outcome.Threw? ==> c.outcome.numFailed == rejected + Refused(c.handed)
    ensures var h := Account(s.history, c);
            && h.reporterSuccess == |Emitted(h.log)|
            && h.reporterFailure == |h.rejected| + rejected + Refused(h.log)
  {
    assert s.history.log + [] == s.history.log;
    if c.handed != [] {
      assert c.handed == [c.handed[0]];
      RefusedPush(s.history.log, c.handed[0]);
      RefusedPush([], c.handed[0]);
    }
  }

  lemma AppendKeepsMetrics(s: State, span: Span, accepts: bool)
    requires MetricsMatch(s)
    ensures MetricsMatch(Appended(s, span, accepts))
  {
    AppendMovesSpans(s.sender, s.history.log, span, accepts);
    MetricsAfter(s, AppendCall(s.sender, span, accepts), if FateOf(s.sender, span, accepts).Rejected? then 1 else 0);
  }

  lemma FlushKeepsMetrics(s: State, accepts: bool)
    requires MetricsMatch(s)
    ensures MetricsMatch(Flushed(s, accepts))
  {
    FlushMovesSpans(s.sender, s.history.log, Explicit, accepts);
    MetricsAfter(s, FlushCall(s.sender, Explicit, accepts), 0);
  }

  lemma StepKeepsMetrics(s: State, step: Step)
    requires MetricsMatch(s) && Enabled(s, step)
    ensures MetricsMatch(Next(s, step))
  {
    match step
    case Send(accepts) => AppendKeepsMetrics(s, s.worker.span, accepts);
    case Flush(accepts) => FlushKeepsMetrics(s, accepts);
    case LastFlush(accepts) => FlushKeepsMetrics(s, accepts);
    case _ =>
  }

  lemma PacketsFitAfter(s: State, t: State, c: Call)
    requires PacketsFit(s)
    requires Accounted(c.sender) && AllFit(c.sender.maxPacketSize, c.handed)
    requires c.sender.maxPacketSize == s.sender.maxPacketSize
    requires t.sender == c.sender && t.history.log == s.history.log + c.handed
    ensures PacketsFit(t)
  {
  }

  lemma AppendKeepsPackets(s: State, span: Span, accepts: bool)
    requires PacketsFit(s)
    ensures PacketsFit(Appended(s, span, accepts))
  {
    AppendStaysAccounted(s.sender, span, accepts);
    PacketsFitAfter(s, Appended(s, span, accepts), AppendCall(s.sender, span, accepts));
  }

  lemma MoreAreFull(maxPacketSize: int, log: seq<HandOff>, handed: seq<HandOff>)
    requires AllFull(maxPacketSize, log) && |handed| <= 1 && AllFullAfter(maxPacketSize, log, handed)
    ensures AllFull(maxPacketSize, log + handed)
  {
    forall i | 0 <= i < |log + handed|
      ensures (log + handed)[..i] == if i < |log| then log[..i] else log
    {
    }
  }

  lemma BatchesFullAfter(s: State, t: State, c: Call)
    requires BatchesFull(s) && |c.handed| <= 1
    requires Counted(c.sender, s.history.log + c.handed)
    requires AllFullAfter(s.sender.maxPacketSize, s.history.log, c.handed)
    requires c.sender.maxPacketSize == s.sender.maxPacketSize
    requires t.sender == c.sender && t.history.log == s.history.log + c.handed
    ensures BatchesFull(t)
  {
    MoreAreFull(s.sender.maxPacketSize, s.history.log, c.handed);
  }

  /** What an append leaves of sender and log. */
  lemma AppendedParts(s: State, span: Span, accepts: bool)
    ensures var t, c := Appended(s, span, accepts), AppendCall(s.sender, span, accepts);
            && t.sender == c.sender && t.history.log == s.history.log + c.handed && |c.handed| <= 1
            && c.sender.maxPacketSize == s.sender.maxPacketSize
  {
  }

  lemma AppendKeepsCounted(s: State, span: Span, accepts: bool, t: State)
    requires Accounted(s.sender) && BatchesFull(s)
    requires t.sender == AppendCall(s.sender, span, accepts).sender
    requires t.history.log == s.history.log + AppendCall(s.sender, span, accepts).handed
    ensures Counted(t.sender, t.history.log)
  {
    AppendStaysCounted(s.sender, s.history.log, span, accepts);
  }

  lemma AppendKeepsAllFull(s: State, span: Span, accepts: bool, t: State)
    requires Accounted(s.sender) && BatchesFull(s)
    requires t.sender == AppendCall(s.sender, span, accepts).sender
    requires t.history.log == s.history.log + AppendCall(s.sender, span, accepts).handed
    ensures AllFull(t.sender.maxPacketSize, t.history.log)
  {
    AppendedParts(s, span, accepts);
    AppendStaysCounted(s.sender, s.history.log, span, accepts);
    MoreAreFull(s.sender.maxPacketSize, s.history.log, AppendCall(s.sender, span, accepts).handed);
  }

  lemma FlushKeepsPackets(s: State, accepts: bool)
    requires PacketsFit(s)
    ensures PacketsFit(Flushed(s, accepts))
  {
    FlushStaysAccounted(s.sender, Explicit, accepts);
    PacketsFitAfter(s, Flushed(s, accepts), FlushCall(s.sender, Explicit, accepts));
  }

  lemma FlushKeepsFull(s: State, accepts: bool)
    requires PacketsFit(s) && BatchesFull(s)
    ensures BatchesFull(Flushed(s, accepts))
  {
    var c := FlushCall(s.sender, Explicit, accepts);
    FlushStaysCounted(s.sender, s.history.log, Explicit, accepts);
    assert c.handed == [] ==> c.sender == s.sender && s.history.log + [] == s.history.log;
    BatchesFullAfter(s, Flushed(s, accepts), c);
  }

  lemma StepKeepsPackets(s: State, step: Step)
    requires PacketsFit(s) && BatchesFull(s) && Enabled(s, step)
    ensures PacketsFit(Next(s, step)) && BatchesFull(Next(s, step))
  {
    match step
    case Send(accepts) =>
      AppendKeepsPackets(s, s.worker.span, accepts);
      AppendedParts(s, s.worker.span, accepts);
      AppendKeepsCounted(s, s.worker.span, accepts, Next(s, step));
      AppendKeepsAllFull(s, s.worker.span, accepts, Next(s, step));
    case Flush(accepts) =>
      FlushKeepsPackets(s, accepts);
      FlushKeepsFull(s, accepts);
    case LastFlush(accepts) =>
      FlushKeepsPackets(s, accepts);
      FlushKeepsFull(s, accepts);
    case _ =>
  }

  lemma DisplacementsPush(log: seq<HandOff>, h: HandOff)
    ensures var lost := !h.accepted && h.cause.Overflow?;
            && Displacements(log + [h]) == Displacements(log) + (if lost then 1 else 0)
            && DisplacedBytes(log + [h]) == DisplacedBytes(log) + if lost then h.cause.next else 0
  {
    assert (log + [h])[..|log|] == log;
  }

  lemma LossesAfter(s: State, t: State, handed: seq<HandOff>)
    requires LossesLogged(s) && |handed| <= 1 && t.history.log == s.history.log + handed
    requires if handed != [] && !handed[0].accepted && handed[0].cause.Overflow? then
               exists span :: t.history.displaced == s.history.displaced + [span] && span.size == handed[0].cause.next
             else t.history.displaced == s.history.displaced
    ensures LossesLogged(t)
  {
    if handed == [] {
      assert t.history.log == s.history.log;
    } else {
      assert handed == [handed[0]];
      DisplacementsPush(s.history.log, handed[0]);
      if t.history.displaced != s.history.displaced {
        var span :| t.history.displaced == s.history.displaced + [span] && span.size == handed[0].cause.next;
        TotalBytesPush(s.history.displaced, span);
      }
    }
  }

  lemma AppendKeepsLosses(s: State, span: Span, accepts: bool)
    requires LossesLogged(s)
    ensures LossesLogged(Appended(s, span, accepts))
  {
    DisplacementIsLogged(s.sender, span, accepts);
    var t, handed := Appended(s, span, accepts), AppendCall(s.sender, span, accepts).handed;
    assert t.history.log == s.history.log + handed;
    assert t.history.displaced ==
           if FateOf(s.sender, span, accepts).Displaced? then s.history.displaced + [span] else s.history.displaced;
    LossesAfter(s, t, handed);
  }

  lemma FlushKeepsLosses(s: State, accepts: bool)
    requires LossesLogged(s)
    ensures LossesLogged(Flushed(s, accepts))
  {
    LossesAfter(s, Flushed(s, accepts), FlushCall(s.sender, Explicit, accepts).handed);
  }

  lemma StepKeepsLosses(s: State, step: Step)
    requires LossesLogged(s) && Enabled(s, step)
    ensures LossesLogged(Next(s, step))
  {
    match step
    case Send(accepts) => AppendKeepsLosses(s, s.worker.span, accepts);
    case Flush(accepts) => FlushKeepsLosses(s, accepts);
    case LastFlush(accepts) => FlushKeepsLosses(s, accepts);
    case _ =>
  }

  lemma StepKeepsProtocol(s: State, step: Step)
    requires QueueAgrees(s) && ProtocolKept(s) && Enabled(s, step)
    ensures QueueAgrees(Next(s, step)) && ProtocolKept(Next(s, step))
  {
  }

  /** A log that only grew was accepted throughout before if it is now. */
  lemma AcceptedPrefix(log: seq<HandOff>, more: seq<HandOff>)
    requires AlwaysAccepted(log + more)
    ensures AlwaysAccepted(log) && AlwaysAccepted(more)
  {
    assert forall i | 0 <= i < |log| :: (log + more)[i] == log[i];
    assert forall i | 0 <= i < |more| :: (log + more)[|log| + i] == more[i];
  }

  lemma AppendKeepsShutdown(s: State, span: Span, accepts: bool)
    requires ShutdownKept(s) && !s.worker.Exited? && !s.closer.Closed?
    ensures ShutdownKept(Appended(s, span, accepts))
  {
    var t := Appended(s, span, accepts);
    if AlwaysAccepted(t.history.log) {
      var handed := AppendCall(s.sender, span, accepts).handed;
      AcceptedPrefix(s.history.log, handed);
      assert handed == [] || handed[0].accepted;
    }
  }

  lemma FlushKeepsShutdown(s: State, accepts: bool)
    requires ShutdownKept(s)
    ensures ShutdownKept(Flushed(s, accepts))
    ensures AlwaysAccepted(Flushed(s, accepts).history.log) ==> Flushed(s, accepts).sender.buffer == []
  {
    var t := Flushed(s, accepts);
    if AlwaysAccepted(t.history.log) {
      var handed := FlushCall(s.sender, Explicit, accepts).handed;
      AcceptedPrefix(s.history.log, handed);
      assert handed == [] || handed[0].accepted;
    }
  }

  lemma StepKeepsShutdown(s: State, step: Step)
    requires ShutdownKept(s) && ProtocolKept(s) && Enabled(s, step)
    ensures ShutdownKept(Next(s, step))
  {
    match step
    case Send(accepts) => AppendKeepsShutdown(s, s.worker.span, accepts);
    case Flush(accepts) => FlushKeepsShutdown(s, accepts);
    case LastFlush(accepts) => FlushKeepsShutdown(s, accepts);
    case _ =>
  }

  lemma StepKeepsBufferRefused(s: State, step: Step)
    requires BufferRefused(s) && ProtocolKept(s) && Enabled(s, step)
    ensures BufferRefused(Next(s, step))
  {
  }

  lemma FlushKeepsHandled(s: State, accepts: bool, n: nat)
    ensures Handled(Flushed(s, accepts), n) == Handled(s, n)
  {
    FlushMovesSpans(s.sender, s.history.log, Explicit, accepts);
  }

  lemma ExitHandlesNothingLate(s: State, n: nat)
    requires SpansConserved(s) && n >= s.history.offered
    ensures Handled(s, n) == 0
  {
    assert Tally(LedgerOf(s), n) == 0;
    CountConcat(Emitted(s.history.log) + s.sender.buffer, InHand(s) + s.queue, n);
    assert Stream(s) == (Emitted(s.history.log) + s.sender.buffer) + (InHand(s) + s.queue);
  }

  lemma ExitKeepsLateUnhandled(s: State)
    requires SpansConserved(s) && Enabled(s, Exit)
    ensures LateUnhandled(Next(s, Exit))
  {
    var t := Next(s, Exit);
    forall n: nat | n >= t.history.offeredBeforeExit ensures Handled(t, n) == 0 {
      ExitHandlesNothingLate(s, n);
      assert Handled(t, n) == Handled(s, n);
    }
  }

  lemma LastFlushKeepsLateUnhandled(s: State, accepts: bool)
    requires LateUnhandled(s) && ProtocolKept(s) && Enabled(s, LastFlush(accepts))
    ensures LateUnhandled(Next(s, LastFlush(accepts)))
  {
    var t := Next(s, LastFlush(accepts));
    forall n: nat | n >= t.history.offeredBeforeExit ensures Handled(t, n) == 0 {
      FlushKeepsHandled(s, accepts, n);
      assert Handled(t, n) == Handled(Flushed(s, accepts), n) == Handled(s, n);
    }
  }

  lemma OtherStepsHandleNothing(s: State, step: Step)
    requires Enabled(s, step) && s.worker.Exited? && ProtocolKept(s) && !step.LastFlush?
    ensures var t := Next(s, step);
            && t.history.offeredBeforeExit == s.history.offeredBeforeExit
            && forall n: nat :: Handled(t, n) == Handled(s, n)
  {
  }

  lemma StepKeepsLateUnhandled(s: State, step: Step)
    requires LateUnhandled(s) && SpansConserved(s) && ProtocolKept(s) && Enabled(s, step)
    ensures LateUnhandled(Next(s, step))
  {
    if step.Exit? {
      ExitKeepsLateUnhandled(s);
    } else if step.LastFlush? {
      LastFlushKeepsLateUnhandled(s, step.accepts);
    } else if s.worker.Exited? {
      OtherStepsHandleNothing(s, step);
    }
  }

  lemma StepKeepsInv(s: State, step: Step)
    requires Inv(s) && Enabled(s, step)
    ensures Inv(Next(s, step))
  {
    StepKeepsProtocol(s, step);
    StepConserves(s, step);
    StepKeepsMetrics(s, step);
    StepKeepsPackets(s, step);
    StepKeepsLosses(s, step);
    StepKeepsShutdown(s, step);
    StepKeepsBufferRefused(s, step);
    StepKeepsLateUnhandled(s, step);
  }

  lemma {:induction false} RunKeepsInv(s: State, steps: seq<Step>, t: State)
    requires Inv(s) && Runs(s, steps, t)
    ensures Inv(t)
    decreases |steps|
  {
    if steps != [] {
      StepKeepsInv(s, steps[0]);
      RunKeepsInv(Next(s, steps[0]), steps[1..], t);
    }
  }

  lemma ReachableInv(s: State)
    requires Reachable(s)
    ensures Inv(s)
  {
    var size, packet, steps :| Runs(Initial(size, packet), steps, s);
    assert Stream(Initial(size, packet)) == [];
    RunKeepsInv(Initial(size, packet), steps, s);
  }
}
