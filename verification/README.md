# A verified model of the Jaeger C++ client

This project models the parts of the Jaeger tracing client where spans can get lost, contexts
can get garbled, or decisions can drift, and proves what holds of them for all inputs, all runs
and all interleavings.

* **Reporting pipeline.** `ThriftSender.dfy` is the batching sender with its byte accounting and
  its half-updated states after a throwing flush. `ReportingPipeline.dfy` is the remote reporter
  as a system of atomic steps: reports, the later increment of the atomic queue length, the
  worker's take, send, time-out, flush and exit, and the closing thread's close, join and last
  flush, with any pattern of transport failures. `ReportingGuarantees.dfy` states what every
  reachable state promises. `RemoteReporter.dfy` is the reporter object, whose methods are
  proved to be steps, or runs of steps, of that system.
* **Propagation.** `HexParsing.dfy`, `SpanContext.dfy`, `QueryEncoding.dfy` and `QueryValues.dfy`
  hold the text forms; `JaegerPropagator.dfy`, `W3CPropagator.dfy` and `BinaryPropagator.dfy` (on
  `Propagation.dfy` and `BinaryNumbers.dfy`) the three formats. Each format has a round-trip
  theorem for every order in which maps and carriers are enumerated; where a law fails for some
  inputs, the theorem says exactly for which. `TextLayouts.dfy` and `BinaryLayouts.dfy` say where
  the parts of the forms are and what any digits or bytes in their places stand for.
* **Tracer.** `Tracer.dfy` is reference analysis and span creation, `SpanLineage.dfy` what holds
  of whole families of spans over runs, `SpanFinish.dfy` the span object, and
  `SpanLifetimes.dfy` how often spans are reported when objects are finished, copied, swapped,
  assigned and destroyed.
* **Samplers.** `RateLimiter.dfy`, `ProbabilisticSampler.dfy`, `GuaranteedThroughputSampler.dfy`,
  `AdaptiveSampler.dfy` and `RemotelyControlledSampler.dfy` follow the classes of those names;
  `SamplerRuns.dfy` covers runs of polls and decisions.

Functions say what a call does to values; methods with loops and classes follow the C++ code
step by step and are proved equal to those functions; lemmas then prove the promises about the
functions. Strings are sequences of characters that stand for bytes. Time is given to each call
as a parameter, in ticks for spans and in real seconds for samplers. Random numbers, the
transport's answers, the sampler's answer to the tracer and the enumeration order of hash maps
are parameters too, so the theorems hold for all of them.

## Where the code and expectations part

* `reporterFailure` is not the number of lost spans. While the reporter runs, a refused batch is
  counted again at every refusal although it is kept (`FailureCountIsNotLoss`,
  `FailureCountsLossExactly`). Of a closed reporter it leaves out the spans stranded in the queue,
  because `report` accepts spans after close (`LossWithoutCount`, `LateSpansAreStranded`), and it
  may over-count refusals; what it is worth is exact (`FailureCountOfClosedReporter`,
  `FailureCountIsLossExactly`).
* The byte counter outgrows a packet, without bound, by the bytes of spans displaced since the
  transport last took a batch (`CounterHasNoBound`, `CounterIsExact`,
  `CounterOverflowsExactly`).
* Percent-encoding writes one digit for bytes below 0x10 and, where char is signed, eight for bytes
  from 0x80 up; it is undone exactly on the other bytes (`EscapeRoundTrip`).
* The W3C propagator writes the trace state as it is but unescapes it on HTTP extraction
  (`W3CRoundTrip`).
* The binary format travels in host order reversed on little-endian hosts, not in network order
  (`WireOrder`, `OtherHostReversesBytes`), and a cut inside its first 37 bytes is mostly
  unnoticed (`TruncatedHeader`).
* A span never has a trace state: neither starting a span nor setting its sampling priority
  keeps one (`RunKeepsInv` of `SpanLineage`, `SetSamplingPriority`).
* The documentation says a self reference must stand alone; unusable references beside it are
  ignored (`RefusedExactly`), and one that holds no IDs starts a span without IDs
  (`AdoptedWithoutIDs`).
* An object that is swapped, as assignment does, can report more than once
  (`SwappedObjectReportsTwice`); how often depends exactly on the unfinished contents it was made
  with, gained and lost (`ReportsAtMostOnceExactly`). Assigning an unfinished span to itself
  reports it (`Assign`).
* The worker destroys copies of spans while it holds the reporter's lock. It waits for itself when
  that reports the copy, which takes a direct report of an unfinished span
  (`FrontReportsExactly`, `DirectReportBlocksWorker`), or when the copy is the last owner of the
  tracer, whose destructor closes the reporter (`DroppedTracerBlocksWorker`). There is no other way
  (`SweepBlockedExactly`).
* An HTTP error from the sampling server, and a server that could not be reached when the sampler
  was made, count as retrieved and as a failed update, not as a failed query (`PollCounters`,
  `EmptyPollIsQueryFailure`).

## Model

| member | source | states |
|---|---|---|
| `ThriftSending.ThriftSender.Append` | src/jaegertracing/ThriftSender.cpp:54-99 | the whole state, the outcome and the batch handed over, also when the flush inside throws and leaves the counter grown, the old buffer kept and the new span gone |
| `ThriftSending.ThriftSender.Flush` | src/jaegertracing/ThriftSender.cpp:101-130 | the buffer is handed over whole; it is emptied only if the transport took it |
| `ThriftSending.ThriftSender.ResetBuffers` | src/jaegertracing/ThriftSender.h:48-52 | the buffer is empty and the counter is the size of the process |
| `ThriftSending.AppendByBranches` | src/jaegertracing/ThriftSender.cpp:54-99 | by sizes alone, when append refuses a span, buffers it and hands nothing over, hands over a buffer it fills exactly, or hands over the buffer first; every batch has the process record of the first span |
| `ThriftSending.CausesAreTrue` | src/jaegertracing/ThriftSender.cpp:91-95 | no batch that append hands over is passed off as one asked for by flush |
| `ThriftSending.AppendStaysAccounted` | src/jaegertracing/ThriftSender.cpp:73-98 | append, throwing or not, keeps buffered bytes within the counter and within a packet, and a batch it hands over fits a packet |
| `ThriftSending.FlushStaysAccounted` | src/jaegertracing/ThriftSender.cpp:101-130 | flush, throwing or not, keeps the same accounting |
| `ThriftSending.AppendMovesSpans` | src/jaegertracing/ThriftSender.cpp:80-98 | a kept span joins the end of "emitted, then buffered"; otherwise that stream is unchanged and the call threw |
| `ThriftSending.AppendStaysCounted` | src/jaegertracing/ThriftSender.cpp:54-99 | append, throwing or not, keeps the exact count: buffered bytes, bytes of spans displaced since the last batch taken, and the process record once a batch was taken; a batch it hands over is full with what the counter held besides it |
| `ThriftSending.SuccessfulHandOffTightens` | src/jaegertracing/ThriftSender.cpp:95-97 | any call in which the transport took a batch leaves only buffered bytes and one process record in the counter |
| `ReportingPipeline.StepKeepsInv` | src/jaegertracing/reporters/RemoteReporter.cpp:48-140 | every step of every thread keeps conservation, order, metrics, packet bound, queue-length agreement and the shutdown protocol |
| `ReportingPipeline.ReachableInv` | src/jaegertracing/reporters/RemoteReporter.cpp:48-140 | these hold in every state that any interleaving and any pattern of transport failures can reach |
| `ReportingPipeline.StepConserves` | src/jaegertracing/reporters/RemoteReporter.cpp:94-125 | no step loses, duplicates or reorders a span |
| `ReportingGuarantees.EverySpanIsInOnePlace` | src/jaegertracing/reporters/RemoteReporter.cpp:48-140 | each span offered is in exactly one of dropped, queued, in the worker's hand, buffered, delivered once, rejected, displaced |
| `ReportingGuarantees.SpansStayInOrder` | src/jaegertracing/reporters/RemoteReporter.cpp:94-99 | emitted, buffered, in hand, queued: that is acceptance order |
| `ReportingGuarantees.MetricsTellTheTruth` | src/jaegertracing/reporters/RemoteReporter.cpp:110-137 | reporterSuccess is the number of spans in batches taken; what reporterFailure and reporterDropped count |
| `ReportingGuarantees.FailureCountsLossExactly` | src/jaegertracing/reporters/RemoteReporter.cpp:110-137 | reporterFailure is at least the number of spans the sender lost as too large or displaced, and equal to it exactly when every refused batch was a single span flushed by an overflow |
| `ReportingGuarantees.FailureCountOfClosedReporter` | src/jaegertracing/reporters/RemoteReporter.cpp:48-140 | once closed, reporterFailure and the queue make the spans lost, also those left in buffer and queue, plus an over-count; that is zero exactly when every refusal but that of the buffer left behind was an overflow flush of a single span |
| `ReportingGuarantees.FailureCountIsLossExactly` | src/jaegertracing/reporters/RemoteReporter.cpp:48-140 | reporterFailure of a closed reporter is the number of spans lost exactly when what it over-counts is what is stranded in the queue |
| `ReportingGuarantees.LossWithoutCount` | src/jaegertracing/reporters/RemoteReporter.cpp:48-61 | a reachable closed reporter that has lost a span and counted nothing |
| `ReportingGuarantees.LossCountedAtLastFlush` | src/jaegertracing/reporters/RemoteReporter.cpp:127-140 | a reachable closed reporter whose refused last flush counted the one span lost |
| `ReportingGuarantees.FailureCountIsNotLoss` | src/jaegertracing/reporters/RemoteReporter.cpp:118-120 | a reachable state in which reporterFailure is 2 and one span is lost |
| `ReportingGuarantees.EveryBatchFitsAPacket` | src/jaegertracing/ThriftSender.cpp:73-98 | every batch ever handed to emitBatch fits maxPacketSize with process and envelope, also after throwing flushes |
| `ReportingGuarantees.CounterIsExact` | src/jaegertracing/ThriftSender.cpp:85-97 | the byte counter of every reachable state, as an equation |
| `ReportingGuarantees.CounterOverflowsExactly` | src/jaegertracing/ThriftSender.cpp:85 | some admissible span overflows the int counter exactly when buffered and displaced bytes leave no room for the largest |
| `ReportingGuarantees.CounterHasNoBound` | src/jaegertracing/ThriftSender.cpp:85-97 | reachable states whose counter exceeds the packet, and any bound, with one span buffered |
| `ReportingGuarantees.ByteCounterStaysInRange` | src/jaegertracing/ThriftSender.cpp:85 | the int counter cannot overflow while the bytes displaced since the last batch taken stay below 2^31 less two packets |
| `ReportingGuarantees.AutomaticBatchesAreFull` | src/jaegertracing/ThriftSender.cpp:85-98 | in every run, a batch flushed by append is full with the process record and the bytes displaced before it: over-full with the next span, or exactly full |
| `ReportingGuarantees.HandOffsOfStep` | src/jaegertracing/reporters/RemoteReporter.cpp:94-104 | a sending step hands over only batches flushed by an append, and so full ones; batches asked for come only from a time-out or the last flush; other steps hand over nothing |
| `ReportingGuarantees.BatchesCarryTheProcess` | src/jaegertracing/ThriftSender.cpp:56-76 | in every run of spans with one process, every batch carries that process's record |
| `ReportingGuarantees.QueueLengthAgrees` | src/jaegertracing/reporters/RemoteReporter.cpp:50-60 | the atomic length plus the reporters between push and increment is the queue's size, which stays within the limit |
| `ReportingGuarantees.SenderIsNeverShared` | src/jaegertracing/reporters/RemoteReporter.cpp:63-79 | at most one close joins, and the worker and the closing thread are never both inside the sender |
| `ReportingGuarantees.CloseDeliversEverything` | src/jaegertracing/reporters/RemoteReporter.cpp:63-108 | once the joining close has returned, a span offered before the worker's exit was dropped, rejected, or delivered exactly once, if the transport never refused |
| `ReportingGuarantees.LateSpansAreStranded` | src/jaegertracing/reporters/RemoteReporter.cpp:48-108 | a span offered after the worker's exit is dropped or queued, stays so in every later state, and is never delivered |
| `ReportingGuarantees.StrandingIsSilent` | src/jaegertracing/reporters/RemoteReporter.cpp:50-60 | queueing such a span raises no counter |
| `ReportingGuarantees.DrainTerminates` | src/jaegertracing/reporters/RemoteReporter.cpp:81-108 | after close began, the worker needs at most two steps more for each new report, whatever the other threads do, and exactly a known number of steps without new reports |
| `ReportingGuarantees.ShutdownCompletes` | src/jaegertracing/reporters/RemoteReporter.cpp:63-108 | from any joining state there is a run of known length in which close returns |
| `RemoteReporting.RemoteReporter.Push` | src/jaegertracing/reporters/RemoteReporter.cpp:50-60 | the locked part of report is one step: queue when there is room, drop otherwise |
| `RemoteReporting.RemoteReporter.CountPushed` | src/jaegertracing/reporters/RemoteReporter.cpp:56 | the increment after the lock is a step of its own |
| `RemoteReporting.RemoteReporter.Report` | src/jaegertracing/reporters/RemoteReporter.cpp:48-61 | with room the span joins the queue's end and the counter follows, without room it is dropped and counted; either way the span is offered, nothing else changes, and this is a run of the steps |
| `RemoteReporting.RemoteReporter.SendSpan` | src/jaegertracing/reporters/RemoteReporter.cpp:110-125 | sending is one step; the metrics are counted from what append returned or threw |
| `RemoteReporting.RemoteReporter.FlushSender` | src/jaegertracing/reporters/RemoteReporter.cpp:127-140 | flushing is the flush of the step system, with its metrics |
| `RemoteReporting.RemoteReporter.SweepOnce` | src/jaegertracing/reporters/RemoteReporter.cpp:81-108 | a round of the worker's loop, running or stopped, is a run of steps in each of its branches |
| `RemoteReporting.RemoteReporter.SweepQueue` | src/jaegertracing/reporters/RemoteReporter.cpp:81-108 | from the moment the reporter is stopped the loop is a run of steps that empties the queue and exits |
| `RemoteReporting.RemoteReporter.Close` | src/jaegertracing/reporters/RemoteReporter.cpp:63-79 | the first close stops, drains, joins and flushes; any later one, the destructor's included, changes nothing |
| `HexParsing.IStream.ReadSegment` | src/jaegertracing/utils/HexParsing.h:35-53 | the loop over the stream reads and leaves what the recursive reading does |
| `HexParsing.SegmentReadsDigits` | src/jaegertracing/utils/HexParsing.h:35-53 | a segment is exactly the run of digits before the delimiter, the end of input or the limit; only the end of input sets the failure bit |
| `HexParsing.DecodeOfPadHex` | src/jaegertracing/utils/HexParsing.h:55-82 | decoding a printed number gives it back, padded or not |
| `HexParsing.DecodeIsValue` | src/jaegertracing/utils/HexParsing.h:55-82 | decodeHex computes the number in base 16 as long as the type has room for the digits |
| `HexParsing.HexValueOfPadHex` | src/jaegertracing/TraceID.h:44-53 | a printed number, padded or not, stands for that number |
| `SpanContexts.PrintedTraceIDReadsBack` | src/jaegertracing/TraceID.cpp:25-47 | the 16-digit and the 32-digit form both read back |
| `SpanContexts.ReadSpanContext` | src/jaegertracing/SpanContext.cpp:23-66 | the parser that consumes a stream field by field leaves what the pure reading leaves |
| `SpanContexts.PrintedContextReadsBack` | src/jaegertracing/SpanContext.h:166-173 | the printed form of every context with a valid trace ID reads back in full and leaves a good stream |
| `SpanContexts.TextRoundTrip` | src/jaegertracing/SpanContext.cpp:23-66 | the round trip holds exactly for valid trace IDs, or when there is nothing to lose |
| `TextLayouts.TraceIDValue` | src/jaegertracing/TraceID.cpp:25-47 | any 1 to 32 digits are read as one 128-bit number |
| `TextLayouts.AnyTextReads` | src/jaegertracing/SpanContext.cpp:23-66 | four fields of any digits, padded or not, are the trace ID, the span ID, the parent's and the flags |
| `TextLayouts.PrintedFields` | src/jaegertracing/SpanContext.h:166-173 | which fields are printed, with how many digits, and what they stand for |
| `TextLayouts.TruncatedTextIsRefused` | src/jaegertracing/SpanContext.cpp:23-66 | a printed context cut anywhere before its flags is refused |
| `QueryEncoding.QueryEscape` | src/jaegertracing/net/URI.cpp:104-116 | the loop computes the escaping, digits of sign-extended bytes included where char is signed |
| `QueryEncoding.QueryUnescape` | src/jaegertracing/net/URI.cpp:118-164 | the three-state loop computes the unescaping |
| `QueryEncoding.UnreservedCharacters` | src/jaegertracing/net/URI.cpp:104-116 | the unreserved characters are those of section 2.3 of RFC 3986 |
| `QueryEncoding.EscapesWhatIsReserved` | src/jaegertracing/net/URI.cpp:104-116 | what is written holds only unreserved characters and '%', and unreserved strings are written as they are |
| `QueryEncoding.EscapeRoundTrip` | src/jaegertracing/net/URI.cpp:104-164 | unescaping undoes escaping exactly when every byte is in 0x10..0x7F, or in 0x10..0xFF where char is unsigned |
| `QueryEncoding.WeightDrops` | src/jaegertracing/net/URI.cpp:104-164 | escaping and unescaping lowers a weight of the string unless every byte is writable, with signed and with unsigned char |
| `QueryValues.ParseQueryValues` | src/jaegertracing/net/URI.cpp:166-221 | the two-state loop with its buffers finds the pairs between the separators |
| `QueryValues.BareKeysComeBack` | src/jaegertracing/net/URI.cpp:166-221 | keys without values read back with empty ones |
| `QueryValues.FormattedQueryParses` | src/jaegertracing/net/URI.cpp:166-221 | the separators of an escaped query are found again whatever the bytes |
| `QueryValues.QueryRoundTrip` | src/jaegertracing/net/URI.cpp:104-221 | a list of pairs survives, in order, exactly when its bytes are escapable and the last key is not empty |
| `QueryValues.QueryMultimapRoundTrip` | src/jaegertracing/net/URI.cpp:104-221 | as an unordered multimap the pairs survive under the same condition and no other |
| `QueryValues.UnescapeFixes` | src/jaegertracing/net/URI.cpp:118-164 | exactly which strings unescaping leaves alone |
| `Propagation.FindDebugID` | src/jaegertracing/propagation/Propagator.h:61-71 | the callback over the headers finds the last value of the debug header |
| `Propagation.DebugIDIsLastShown` | src/jaegertracing/propagation/Propagator.h:61-71 | of several debug headers the last one counts |
| `Propagation.DebugIDForces` | src/jaegertracing/propagation/Propagator.h:79-90 | a debug ID sets both sampling bits and itself, and leaves everything else |
| `Propagation.NoDebugIDKeeps` | src/jaegertracing/propagation/Propagator.h:73-90 | without a debug ID the format's own context stays, unless it has neither trace ID nor baggage |
| `Propagation.ConfiguredNames` | src/jaegertracing/propagation/HeadersConfig.h:62-80 | configured header names are used, and the client's own otherwise |
| `JaegerPropagation.ParseCommaSeparatedMap` | src/jaegertracing/propagation/JaegerPropagator.h:95-109 | the loop over pieces fills the map of "key=value" pieces, later ones winning |
| `JaegerPropagation.JoinedPiecesRead` | src/jaegertracing/propagation/JaegerPropagator.h:95-109 | pairs joined as "key=value" pieces by commas read back, later ones winning |
| `JaegerPropagation.BaggageHeaderAdds` | src/jaegertracing/propagation/JaegerPropagator.h:51-55 | the baggage header adds its pairs to the baggage |
| `JaegerPropagation.ExtractContext` | src/jaegertracing/propagation/JaegerPropagator.h:35-78 | the loop over headers, with its early end on a corrupted context, computes the extraction |
| `JaegerPropagation.DebugHeaderForces` | src/jaegertracing/propagation/Propagator.h:59-91 | a debug header forces sampling of what the other headers give, under its last value |
| `JaegerPropagation.DebugHeaderAlone` | src/jaegertracing/propagation/Propagator.h:59-91 | the default debug header alone gives a context with both bits and its value |
| `JaegerPropagation.InjectionCarries` | src/jaegertracing/propagation/JaegerPropagator.h:80-92 | the carrier written holds the context and exactly the baggage, in every order of the baggage |
| `JaegerPropagation.DefaultNamesAreApart` | src/jaegertracing/propagation/HeadersConfig.h:62-80 | the default header names meet the round trip's condition |
| `JaegerPropagation.JaegerRoundTrip` | src/jaegertracing/propagation/JaegerPropagator.h:35-92 | extract after inject gives the same identity, flags and baggage for every header order exactly when the trace ID is valid and, on HTTP, keys are lower-case and values escapable |
| `W3CPropagation.ReadTraceParentFrom` | src/jaegertracing/propagation/W3CPropagator.h:86-150 | the stream parser does what the pure reading does, character by character |
| `W3CPropagation.TraceParentShape` | src/jaegertracing/propagation/W3CPropagator.h:152-168 | 55 characters in the shape of section 3.2.2 of W3C Trace Context, for every context |
| `W3CPropagation.TraceParentReadsBack` | src/jaegertracing/propagation/W3CPropagator.h:86-168 | a written traceparent reads back without the parent ID exactly for valid trace IDs |
| `TextLayouts.AnyTraceParentReads` | src/jaegertracing/propagation/W3CPropagator.h:86-150 | any digits of the right length in the three fields are the trace ID, the span ID and the flags |
| `TextLayouts.TraceParentFields` | src/jaegertracing/propagation/W3CPropagator.h:152-168 | where the three numbers are in what is written |
| `TextLayouts.TruncatedTraceParentIsRefused` | src/jaegertracing/propagation/W3CPropagator.h:86-131 | a written traceparent cut anywhere before its end is refused |
| `W3CPropagation.ExtractContext` | src/jaegertracing/propagation/W3CPropagator.h:36-73 | the loop over headers computes the extraction |
| `W3CPropagation.DebugHeaderForces` | src/jaegertracing/propagation/Propagator.h:59-91 | the same for this format |
| `W3CPropagation.W3CRoundTrip` | src/jaegertracing/propagation/W3CPropagator.h:36-83 | identity, flags and trace state come back for every header order exactly when the trace ID is valid and, on HTTP, unescaping fixes the trace state |
| `BinaryNumbers.SwapTwice` | src/jaegertracing/platform/Endian.h:67-77 | the byte-order functions are their own inverses on every host |
| `BinaryNumbers.WriteNumber` | src/jaegertracing/propagation/Propagator.h:193-204 | the shifting loop writes the bytes of the swapped number |
| `BinaryNumbers.ReadNumber` | src/jaegertracing/propagation/Propagator.h:206-221 | the accumulating loop reads them, also when the input ends early |
| `BinaryNumbers.WireOrder` | src/jaegertracing/propagation/Propagator.h:193-204 | network order on big-endian hosts, the opposite on little-endian ones, and when the two coincide |
| `BinaryNumbers.OtherHostReversesBytes` | src/jaegertracing/propagation/Propagator.h:206-221 | a number read on the other kind of host has its bytes reversed |
| `BinaryNumbers.EveryHostIsFaithful` | src/jaegertracing/propagation/Propagator.h:193-221 | on either host every 64-bit and 32-bit number reads back |
| `BinaryPropagation.InjectContext` | src/jaegertracing/propagation/Propagator.h:134-153 | the writing loop produces the encoding |
| `BinaryPropagation.ExtractContext` | src/jaegertracing/propagation/Propagator.h:155-190 | the reading loop produces the decoding, with its error path |
| `BinaryLayouts.HeaderLayout` | src/jaegertracing/propagation/Propagator.h:134-153 | at which offsets the numbers of the header are |
| `BinaryLayouts.ItemLayout` | src/jaegertracing/propagation/Propagator.h:144-152 | each item is its key and its value, each behind its length |
| `BinaryLayouts.ShortNumber` | src/jaegertracing/propagation/Propagator.h:206-221 | a number cut short reads, in network order, as its leading bytes |
| `BinaryPropagation.BinaryRoundTrip` | src/jaegertracing/propagation/Propagator.h:134-190 | extract after inject gives the same context for every order of the baggage, on either kind of host |
| `BinaryPropagation.TruncatedBaggageIsRefused` | src/jaegertracing/propagation/Propagator.h:167-187 | any strict prefix cut behind the 37-byte header decodes to the empty context with one error |
| `BinaryPropagation.TruncatedHeader` | src/jaegertracing/propagation/Propagator.h:155-167 | exactly when a cut inside the header is counted as an error |
| `Tracing.AnalyzeReferences` | src/jaegertracing/Tracer.cpp:201-246 | the loop finds the first usable ChildOf, or else the last usable reference if valid, the last usable self reference, and keeps the usable others in order |
| `Tracing.AnalysisMeansIt` | src/jaegertracing/Tracer.cpp:201-246 | the declarative meaning of the analysis determines its result |
| `Tracing.RelativesKeepOrder` | src/jaegertracing/Tracer.cpp:226 | every usable reference that is not the span itself is kept behind those kept before it |
| `Tracing.RefusedExactly` | src/jaegertracing/Tracer.cpp:77-80 | a start is refused exactly when a usable self reference does not stand alone |
| `Tracing.UselessReferencesAreIgnored` | src/jaegertracing/Tracer.cpp:209-221 | references of other libraries, or to contexts without valid IDs, debug ID and baggage, change nothing wherever they stand |
| `Tracing.LoneParent` | src/jaegertracing/Tracer.cpp:86-136 | what each kind of lone ChildOf context gives a new span |
| `Tracing.Tracer.StartSpanWithOptions` | src/jaegertracing/Tracer.cpp:67-154 | the new context, the tags, the references and the counters, or a refusal that counts nothing |
| `Tracing.Tracer.StartSpanInternal` | src/jaegertracing/Tracer.cpp:184-196 | which of the five counters move |
| `SpanLineage.StartDescends` | src/jaegertracing/Tracer.cpp:86-136 | what a new span takes from its parent, its self reference or neither, which IDs are drawn for it, and when its flags are the sampler's answer |
| `SpanLineage.RunKeepsInv` | src/jaegertracing/Tracer.cpp:73-143 | in every run every span keeps its lineage: parent's trace ID, flags and baggage at start, parent ID, its own span ID and a root's trace ID as drawn, roots with span ID equal to the low trace ID |
| `SpanLineage.SpanIDsAreUnique` | src/jaegertracing/Tracer.cpp:93-122 | with different random numbers, no two spans of a run share a span ID, but for those adopted from self references |
| `SpanLineage.SamplingIsDecided` | src/jaegertracing/Tracer.cpp:104-117 | who decides on sampling, the tags that say so, and the references kept |
| `SpanLineage.OneTracePerFamily` | src/jaegertracing/Tracer.cpp:119-126 | all spans of a family share the trace ID of their topmost span |
| `SpanLineage.ValidUnlessAdopted` | src/jaegertracing/Tracer.cpp:86-126 | a context is invalid exactly when it was adopted from an invalid self reference |
| `SpanLineage.AllValidWithoutSelf` | src/jaegertracing/Tracer.cpp:86-126 | without self references every context of every run is valid |
| `SpanLineage.AdoptedWithoutIDs` | src/jaegertracing/Tracer.cpp:90-101 | a self reference to a debug container starts a span without IDs |
| `SpanLineage.CountersAddUp` | src/jaegertracing/Tracer.cpp:184-196 | spansStarted is the sum of sampled and not sampled, and the trace counters sum to the spans that opened a trace |
| `SpanLineage.CountersCount` | src/jaegertracing/Tracer.cpp:184-196 | in every run each counter is the number of spans it is named after |
| `SpanLineage.PriorityBits` | src/jaegertracing/Span.cpp:144-165 | which flag bits a priority sets and clears, and that the others and the IDs stay |
| `SpanLineage.FamilySampledAlike` | src/jaegertracing/Tracer.cpp:119-126 | while no priority is set, a whole family keeps the flags its topmost span started with |
| `SpanFinishing.Span.FinishWithOptions` | src/jaegertracing/Span.cpp:84-117 | the first finish sets a positive duration and reports the finished span once; later ones do nothing |
| `SpanFinishing.FirstFinishCounts` | src/jaegertracing/Span.cpp:94-110 | a span ends at the time of its first finish, or one tick behind its start; its records join the logs once |
| `SpanFinishing.Span.Swap` | src/jaegertracing/Span.h:89-106 | contents change places |
| `SpanFinishing.Span.Assign` | src/jaegertracing/Span.h:81-87 | the target holds a copy, and what it held is reported if it was unfinished |
| `SpanFinishing.Span.SetSamplingPriority` | src/jaegertracing/Span.cpp:144-165 | sets or clears the flag bits and drops the trace state |
| `SpanFinishing.Tracer.ReportSpan` | src/jaegertracing/Tracer.h:195-201 | every report is counted, only sampled spans go on |
| `SpanLifetimes.ReportsAreConserved` | src/jaegertracing/Span.h:63-106 | in every run, reports of a span plus its unfinished instances are one for its start and one for each copy made while unfinished |
| `SpanLifetimes.ReportedExactlyOnce` | src/jaegertracing/Span.cpp:84-117 | a span never copied while unfinished is reported at most once, and exactly once when no object holds it unfinished |
| `SpanLifetimes.ObjectReportsOnce` | src/jaegertracing/Span.h:87 | an object never swapped or assigned to causes at most one report however often it is finished or destroyed |
| `SpanLifetimes.FinishedStaysSilent` | src/jaegertracing/Span.h:63-79 | an object that has finished, or was copied from one that had, never reports again unless it is swapped |
| `SpanLifetimes.SwapBringsAnotherReport` | src/jaegertracing/Span.h:81-106 | a swap with an unfinished span makes an object report once more |
| `SpanLifetimes.SwappedObjectReportsTwice` | src/jaegertracing/Span.h:81-106 | a reachable state in which one object has reported twice |
| `SpanLifetimes.ObjectReportsAreConserved` | src/jaegertracing/Span.h:63-106 | in every run, what an object has reported and may still report is one if made unfinished, plus unfinished contents gained by swaps, less those lost |
| `SpanLifetimes.ReportsAtMostOnceExactly` | src/jaegertracing/Span.h:63-106 | exactly when an object has reported at most once, in terms of what it was made with, gained and lost |
| `SpanLifetimes.RunKeepsSound` | src/jaegertracing/Span.cpp:97-102 | durations never get negative, what finishing reports has a positive one, and the queue is the copies taken and not yet swept |
| `SpanLifetimes.SweepNeverReports` | src/jaegertracing/reporters/RemoteReporter.cpp:94-98 | while nobody reports an unfinished span directly, destroying copies under the queue's lock never re-enters report, and the worker can always go on if the program holds the tracer |
| `SpanLifetimes.FrontReportsExactly` | src/jaegertracing/reporters/RemoteReporter.cpp:94-98 | destroying the oldest copy re-enters report exactly when it comes from a direct report of a sampled, unfinished span |
| `SpanLifetimes.SweepBlockedExactly` | src/jaegertracing/reporters/RemoteReporter.cpp:94-98 | the worker is stuck exactly when the oldest copy not swept comes from a direct report of a sampled, unfinished span, or is the last owner of the tracer, whose destructor closes the reporter |
| `SpanLifetimes.StuckForGood` | src/jaegertracing/reporters/RemoteReporter.cpp:94-98 | once stuck, the worker never takes a copy again |
| `SpanLifetimes.DirectReportBlocksWorker` | src/jaegertracing/Tracer.h:195-201 | a reachable state in which the worker is stuck |
| `SpanLifetimes.DroppedTracerBlocksWorker` | src/jaegertracing/Tracer.h:94 | a reachable state in which the worker is stuck after the program dropped an unclosed tracer |
| `RateLimiting.RateLimiter.CheckCredit` | src/jaegertracing/utils/RateLimiter.h:39-59 | the new balance and the answer |
| `RateLimiting.CreditIsConserved` | src/jaegertracing/utils/RateLimiter.h:39-59 | over any run, grants and credit left never exceed credit had and earned |
| `RateLimiting.GrantsAreBounded` | src/jaegertracing/utils/RateLimiter.h:39-59 | at most the room and what is earned meanwhile is granted |
| `RateLimiting.NoStarvation` | src/jaegertracing/utils/RateLimiter.h:39-59 | denials cannot last as long as it takes to earn one credit |
| `RateLimiting.CreditIsKept` | src/jaegertracing/utils/RateLimiter.h:39-59 | no credit is lost without being spent |
| `RateLimiting.WholeBurstIsGranted` | src/jaegertracing/utils/RateLimiter.h:39-59 | as many requests as there is credit are all granted, however fast they come |
| `ProbabilisticSampling.SampledShare` | src/jaegertracing/samplers/ProbabilisticSampler.h:38-78 | the share of 64-bit IDs sampled differs from the clamped rate by at most 2^-64 |
| `ProbabilisticSampling.LargerRateSamplesMore` | src/jaegertracing/samplers/ProbabilisticSampler.h:48-52 | a larger rate samples a superset |
| `ProbabilisticSampling.AllSampledAtOne` | src/jaegertracing/samplers/ProbabilisticSampler.h:66-78 | every ID is sampled exactly at rate 1 and above |
| `ProbabilisticSampling.NoneSampledNearZero` | src/jaegertracing/samplers/ProbabilisticSampler.h:66-78 | below a rate of one ID in all, and only there, no ID a tracer can draw is sampled |
| `GuaranteedThroughput.UpdateRenews` | src/jaegertracing/samplers/GuaranteedThroughputProbabilisticSampler.cpp:22-38 | an update has the settings of a new sampler, and credit survives exactly when the lower bound is unchanged |
| `GuaranteedThroughput.GuaranteedSampler.Update` | src/jaegertracing/samplers/GuaranteedThroughputProbabilisticSampler.cpp:22-38 | the object ends up with those fields |
| `GuaranteedThroughput.GuaranteedSampler.IsSampled` | src/jaegertracing/samplers/GuaranteedThroughputProbabilisticSampler.h:52-64 | the decision, its tags, and the credit asked for on both branches |
| `GuaranteedThroughput.DecisionExactly` | src/jaegertracing/samplers/GuaranteedThroughputProbabilisticSampler.h:52-64 | traces up to the rate's boundary are sampled by rate, those above it exactly when a credit is granted |
| `GuaranteedThroughput.SamplingIsBounded` | src/jaegertracing/samplers/GuaranteedThroughputProbabilisticSampler.h:52-64 | over any run, the traces sampled are those up to the boundary and, of those above it, as many as were granted credits: at most the room and what was earned |
| `GuaranteedThroughput.ThroughputIsGuaranteed` | src/jaegertracing/samplers/GuaranteedThroughputProbabilisticSampler.h:52-64 | in any run of decisions long enough to earn a credit at the lower bound, some trace is sampled |
| `GuaranteedThroughput.ThroughputAfterAnyUse` | src/jaegertracing/samplers/GuaranteedThroughputProbabilisticSampler.h:52-64 | the guarantee for every sampler made with a bound that is not negative, after any decisions and updates |
| `GuaranteedThroughput.FirstDecisionSamples` | src/jaegertracing/samplers/GuaranteedThroughputProbabilisticSampler.cpp:33-36 | a new sampler, or one whose bound has just changed, samples its next trace |
| `AdaptiveSampling.AdaptiveSampler.constructor` | src/jaegertracing/samplers/AdaptiveSampler.cpp:33-57 | one sampler for each operation named, the last strategy winning |
| `AdaptiveSampling.AdaptiveSampler.IsSampled` | src/jaegertracing/samplers/AdaptiveSampler.cpp:59-76 | which sampler decides, and the entry added below the cap |
| `AdaptiveSampling.AdaptiveSampler.Update` | src/jaegertracing/samplers/AdaptiveSampler.cpp:86-101 | entries are updated or added in the order of the strategies |
| `AdaptiveSampling.OperationsAreIndependent` | src/jaegertracing/samplers/AdaptiveSampler.cpp:59-76 | however operations interleave, one that has a sampler is sampled as by that sampler alone |
| `AdaptiveSampling.FirstDecision` | src/jaegertracing/samplers/AdaptiveSampler.cpp:67-75 | who decides for an operation without a sampler, below the cap and at it |
| `AdaptiveSampling.UpdateSettles` | src/jaegertracing/samplers/AdaptiveSampler.cpp:86-101 | an update settles each operation by the last strategy naming it and leaves the others alone |
| `AdaptiveSampling.ConstructionIsUpdate` | src/jaegertracing/samplers/AdaptiveSampler.cpp:33-44 | a new map is what an update makes of an empty one |
| `AdaptiveSampling.CapBindsDecisions` | src/jaegertracing/samplers/AdaptiveSampler.cpp:67-75 | decisions add an entry only below the cap and touch no other |
| `AdaptiveSampling.UpdatesIgnoreCap` | src/jaegertracing/samplers/AdaptiveSampler.cpp:86-101 | after an update every operation named has an entry, cap or not, and the defaults are unchanged |
| `RemoteSampling.RemotelyControlledSampler.UpdateSampler` | src/jaegertracing/samplers/RemotelyControlledSampler.cpp:143-176 | the sampler and the four counters after a poll of each kind |
| `RemoteSampling.PollCounters` | src/jaegertracing/samplers/RemotelyControlledSampler.cpp:54-176 | exactly which answers of the server raise which counter: an exception or an unreadable body, an unknown server or an error status, a body without strategies, a body with some |
| `RemoteSampling.EmptyPollIsQueryFailure` | src/jaegertracing/samplers/RemotelyControlledSampler.cpp:54-176 | a poll without strategies counts as a failed query exactly for an exception or a body that cannot be parsed |
| `RemoteSampling.RemotelyControlledSampler.UpdateAdaptiveSampler` | src/jaegertracing/samplers/RemotelyControlledSampler.cpp:178-190 | an adaptive sampler is updated in place, any other replaced |
| `RemoteSampling.RemotelyControlledSampler.UpdateRateLimitingOrProbabilisticSampler` | src/jaegertracing/samplers/RemotelyControlledSampler.cpp:192-210 | what replaces the sampler, and when the response is unsupported |
| `RemoteSampling.RemotelyControlledSampler.IsSampled` | src/jaegertracing/samplers/RemotelyControlledSampler.cpp:110-117 | the decision of the sampler in use and its effect |
| `SamplerRuns.RunFollows` | src/jaegertracing/samplers/AdaptiveSampler.cpp:33-103 | over any run of polls and decisions from a sampler that is not adaptive, each entry has the settings of the last strategies naming it since the sampler became adaptive, else the first defaults; every operation named has an entry and at most the cap of others do |
| `SamplerRuns.RunFollowsGivenAdaptive` | src/jaegertracing/samplers/RemotelyControlledSampler.cpp:178-190 | the same from an adaptive sampler handed to the constructor, which is updated in place |
| `SamplerRuns.NegativeSettingIsNoCap` | src/jaegertracing/samplers/RemotelyControlledSampler.cpp:85-108 | a negative number of operations, converted to an unsigned one, is no cap |
| `SamplerRuns.PollsAreCounted` | src/jaegertracing/samplers/RemotelyControlledSampler.cpp:143-176 | retrieved is updated plus failed updates, and polls are retrieved plus failed queries |
| `SamplerRuns.FailedPollChangesNothing` | src/jaegertracing/samplers/RemotelyControlledSampler.cpp:150-173 | a poll that counts no update leaves the sampler as it was |
| `SamplerRuns.LastResponseRules` | src/jaegertracing/samplers/RemotelyControlledSampler.cpp:143-210 | in every run the kind of sampler and its rate or limit are those of the last response followed |
| `SamplerRuns.AsksSpendCredit` | src/jaegertracing/samplers/RemotelyControlledSampler.cpp:110-117 | between polls, decisions spend the credit of a rate limit or of an adaptive sampler's operations, and change no other sampler |
| `SamplerRuns.NewLimitIsFull` | src/jaegertracing/samplers/RemotelyControlledSampler.cpp:200-202 | a limiter put in place by a poll is full |
| `SamplerRuns.EntriesNeverVanish` | src/jaegertracing/samplers/AdaptiveSampler.cpp:59-103 | while no poll replaces the adaptive sampler, no operation loses its entry |

## Left out

- Sockets, IP addresses, HTTP clients, the crossdock service, test utilities and the example: input and output.
- Thrift marshalling: the serialised sizes of spans and processes are parameters, and that an envelope fits the reserved 30 bytes is an assumption.
- The process record: the sender takes it from the first span, under the assumption that the service name is not empty, as the tracer's factory demands.
- Clocks and condition variables: time-outs and spurious wake-ups are steps that may happen at any time; the reporter makes no real-time claim.
- The logger, metric names, the queue-length gauge, YAML and environment configuration, `URI::parse`: library behaviour.
- Baggage restrictions: setting baggage replaces the map by an arbitrary one.
- Conversion of tags, log records and references to Thrift, and the tags of a span: single-branch code.
- Exceptions other than those of the transport, such as running out of memory for a huge length in binary input.
- Overflow of 64-bit counters and of span durations; the one int counter at risk is covered by `ByteCounterStaysInRange`.
- Locale-dependent lower-casing of characters outside ASCII in header names.
- The locks of a span: operations on span objects are atomic, so a span swapped by another thread between being finished and being reported is not covered.
- `AdaptiveSampler::close`, and the polling thread's loop and shutdown: each poll is a step.
- ThriftSending.ThriftSender.Append: whether the service name is still empty is a flag, so a service without a name, whose process would be measured again at each call, is not covered.
- RemoteReporting.RemoteReporter.SweepQueue: starts from a stopped reporter, as the loop of a running one has no end; any round of that is `SweepOnce`, and any interleaving of rounds a run of the step system.
- Tracing.Tracer.StartSpanWithOptions: start times, operation names and caller's tags are not modelled, and random IDs are arbitrary non-zero numbers.
- BinaryPropagation.BinaryRoundTrip: holds for sizes below 2^32, as lengths travel in 32 bits.
- ProbabilisticSampling.SampledShare: computed over the reals; rounding of long double and rates that are not numbers are not modelled.
- AdaptiveSampling.AdaptiveSampler.Update: all samplers made in one call share one time.
- RemoteSampling.RemotelyControlledSampler.IsSampled: a sampler of another type handed to the constructor, neither adaptive, probabilistic nor rate-limiting, is a parameter's answer.
- SpanLifetimes.SweepBlockedExactly: taking a copy that makes the worker wait for itself has no continuation in the model; owners of the tracer are the program's pointers, live spans and queued copies, not references obtained from a span.
