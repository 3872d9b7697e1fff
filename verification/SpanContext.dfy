/**
 Trace identity: trace IDs, span contexts, and their printed form.
 */
module SpanContexts {
  import opened HexParsing

  const SAMPLED_FLAG := 1
  const DEBUG_FLAG := 2

  datatype TraceID = TraceID(high: u64, low: u64) {
    predicate IsValid() {
      high != 0 || low != 0
    }

    function Print(): string {
      if high == 0 then PadHex(low, 16) else PadHex(high, 16) + PadHex(low, 16)
    }
  }

  const NO_TRACE := TraceID(0, 0)

  datatype SpanContext = SpanContext(
    traceID: TraceID,
    spanID: u64,
    parentID: u64,
    flags: u8,
    baggage: map<string, string>,
    debugID: string,
    traceState: string)
  {
    predicate IsValid() {
      traceID.IsValid() && spanID != 0
    }

    predicate IsDebugIDContainerOnly() {
      !traceID.IsValid() && debugID != ""
    }

    predicate IsSampled() {
      flags % 2 == 1
    }

    /** Flag bits 0 and 1 set, as `flags | kDebug | kSampled`. */
    function Debugged(): SpanContext {
      this.(flags := flags - flags % 4 + 3)
    }

    function Print(): string {
      traceID.Print() + ":" + PadHex(spanID, 16) + ":" + PadHex(parentID, 16) + ":" + Hex(flags)
    }

    /** The part of a context that is printed. */
    function Bare(): SpanContext {
      SpanContext(traceID, spanID, parentID, flags, map[], "", "")
    }
  }

  const EMPTY_CONTEXT := SpanContext(NO_TRACE, 0, 0, 0, map[], "", "")

  // ---- Reading ----

  /** One character that must be `ch`. */
  function Expect(s: Stream, ch: char): (bool, Stream) {
    if s.failed || s.rest == "" then (false, s.(failed := true))
    else (s.rest[0] == ch, s.(rest := s.rest[1..]))
  }

  /** A trace ID of up to 32 digits; the last 16 are the low half. */
  function TraceIDOf(digits: string): TraceID
    requires AllHex(digits)
  {
    if |digits| < 16 then TraceID(0, DecodeHex(digits, U64_RANGE))
    else
      var split := |digits| - 16;
      TraceID(DecodeHex(digits[..split], U64_RANGE), DecodeHex(digits[split..], U64_RANGE))
  }

  /** SpanContext::fromStream: the context read, and the stream behind it. */
  function FromStream(s0: Stream): (SpanContext, Stream) {
    var (idDigits, s1) := Segment(s0, 32, ':', "");
    var traceID := TraceIDOf(idDigits);
    if !traceID.IsValid() then (EMPTY_CONTEXT, s1)
    else
      var (colon1, s2) := Expect(s1, ':');
      if !colon1 then (EMPTY_CONTEXT, s2)
      else
        var (spanDigits, s3) := Segment(s2, 16, ':', "");
        if spanDigits == "" then (EMPTY_CONTEXT, s3)
        else
          var (colon2, s4) := Expect(s3, ':');
          if !colon2 then (EMPTY_CONTEXT, s4)
          else
            var (parentDigits, s5) := Segment(s4, 16, ':', "");
            if parentDigits == "" then (EMPTY_CONTEXT, s5)
            else
              var (colon3, s6) := Expect(s5, ':');
              if !colon3 then (EMPTY_CONTEXT, s6)
              else
                var (flagDigits, s7) := Segment(s6, 2, ':', "");
                if flagDigits == "" then (EMPTY_CONTEXT, s7)
                else
                  (SpanContext(traceID, DecodeHex(spanDigits, U64_RANGE), DecodeHex(parentDigits, U64_RANGE),
                               DecodeHex(flagDigits, U8_RANGE), map[], "", ""),
                   s7.(failed := false))
  }

  method ExpectChar(input: IStream, expected: char) returns (found: bool)
    modifies input
    ensures (found, input.Now()) == Expect(old(input.Now()), expected)
  {
    var ok, ch := input.Get();
    found := ok && ch == expected;
  }

  method TraceIDFromStream(input: IStream) returns (traceID: TraceID)
    modifies input
    ensures var (digits, after) := Segment(old(input.Now()), 32, ':', "");
            traceID == TraceIDOf(digits) && input.Now() == after
  {
    var buffer := input.ReadSegment(32, ':');
    if buffer == "" {
      return NO_TRACE;
    }
    if |buffer| < 16 {
      var low := DecodeHexDigits(buffer, U64_RANGE);
      return TraceID(0, low);
    }
    var high := DecodeHexDigits(buffer[..|buffer| - 16], U64_RANGE);
    var low := DecodeHexDigits(buffer[|buffer| - 16..], U64_RANGE);
    return TraceID(high, low);
  }

  method ReadSpanContext(input: IStream) returns (ctx: SpanContext)
    modifies input
    ensures (ctx, input.Now()) == FromStream(old(input.Now()))
  {
    var traceID := TraceIDFromStream(input);
    if !traceID.IsValid() {
      return EMPTY_CONTEXT;
    }
    var colon := ExpectChar(input, ':');
    if !colon {
      return EMPTY_CONTEXT;
    }
    var buffer := input.ReadSegment(16, ':');
    if buffer == "" {
      return EMPTY_CONTEXT;
    }
    var spanID := DecodeHexDigits(buffer, U64_RANGE);
    colon := ExpectChar(input, ':');
    if !colon {
      return EMPTY_CONTEXT;
    }
    buffer := input.ReadSegment(16, ':');
    if buffer == "" {
      return EMPTY_CONTEXT;
    }
    var parentID := DecodeHexDigits(buffer, U64_RANGE);
    colon := ExpectChar(input, ':');
    if !colon {
      return EMPTY_CONTEXT;
    }
    buffer := input.ReadSegment(2, ':');
    if buffer == "" {
      return EMPTY_CONTEXT;
    }
    var flags := DecodeHexDigits(buffer, U8_RANGE);
    input.Clear();
    return SpanContext(traceID, spanID, parentID, flags, map[], "", "");
  }

  // ---- Round trip ----

  lemma PrintedTraceIDReadsBack(id: TraceID)
    ensures var digits := id.Print();
            AllHex(digits) && |digits| <= 32 && TraceIDOf(digits) == id
  {
    PadHexExact(id.high);
    PadHexExact(id.low);
    DecodeOfPadHex(id.high, 16, U64_RANGE);
    DecodeOfPadHex(id.low, 16, U64_RANGE);
    var digits := id.Print();
    if id.high == 0 {
      assert digits[..0] == "" && digits[0..] == digits;
    } else {
      assert digits[..16] == PadHex(id.high, 16) && digits[16..] == PadHex(id.low, 16);
    }
  }

  /** Reading "digits:tail" takes the digits and the delimiter. */
  lemma FieldReads(digits: string, delim: char, tail: string, maxChars: nat)
    requires AllHex(digits) && |digits| <= maxChars && !IsHex(delim)
    ensures Segment(Stream(digits + [delim] + tail, false), maxChars, delim, "")
         == (digits, Stream([delim] + tail, false))
    ensures Expect(Stream([delim] + tail, false), delim) == (true, Stream(tail, false))
  {
    assert digits + [delim] + tail == digits + ([delim] + tail);
    SegmentReadsDigits(digits, [delim] + tail, maxChars, delim, "");
    assert "" + digits == digits;
    assert ([delim] + tail)[1..] == tail;
  }

  lemma FlagsRead(flags: u8)
    ensures var (digits, after) := Segment(Stream(Hex(flags), false), 2, ':', "");
            digits == Hex(flags) && after.rest == "" && DecodeHex(digits, U8_RANGE) == flags
  {
    assert Pow16(1) == 16 && Pow16(2) == 256;
    HexFits(flags, 2);
    SegmentReadsDigits(Hex(flags), "", 2, ':', "");
    assert Hex(flags) + "" == Hex(flags) && "" + Hex(flags) == Hex(flags);
    DecodeOfHex(flags, U8_RANGE);
  }

  /** Whatever is printed for a valid trace ID reads back in full and leaves a good stream. */
  lemma {:induction false} PrintedContextReadsBack(ctx: SpanContext)
    requires ctx.traceID.IsValid()
    ensures FromStream(Stream(ctx.Print(), false)) == (ctx.Bare(), Stream("", false))
  {
    var tail3 := Hex(ctx.flags);
    var tail2 := PadHex(ctx.parentID, 16) + ":" + tail3;
    var tail1 := PadHex(ctx.spanID, 16) + ":" + tail2;
    assert ctx.Print() == ctx.traceID.Print() + ":" + tail1;
    PrintedTraceIDReadsBack(ctx.traceID);
    FieldReads(ctx.traceID.Print(), ':', tail1, 32);
    PadHexExact(ctx.spanID);
    DecodeOfPadHex(ctx.spanID, 16, U64_RANGE);
    FieldReads(PadHex(ctx.spanID, 16), ':', tail2, 16);
    PadHexExact(ctx.parentID);
    DecodeOfPadHex(ctx.parentID, 16, U64_RANGE);
    FieldReads(PadHex(ctx.parentID, 16), ':', tail3, 16);
    FlagsRead(ctx.flags);
  }

  lemma InvalidTextIsRefused(ctx: SpanContext)
    requires !ctx.traceID.IsValid()
    ensures FromStream(Stream(ctx.Print(), false)).0 == EMPTY_CONTEXT
  {
    var id := ctx.traceID.Print();
    var tail := PadHex(ctx.spanID, 16) + ":" + PadHex(ctx.parentID, 16) + ":" + Hex(ctx.flags);
    assert ctx.Print() == id + ":" + tail;
    PrintedTraceIDReadsBack(ctx.traceID);
    InvalidIDIsRefused(ctx.traceID, id, tail);
  }

  lemma InvalidIDIsRefused(traceID: TraceID, id: string, tail: string)
    requires AllHex(id) && |id| <= 32 && TraceIDOf(id) == traceID && !traceID.IsValid()
    ensures FromStream(Stream(id + ":" + tail, false)).0 == EMPTY_CONTEXT
  {
    FieldReads(id, ':', tail, 32);
  }

  /** The printed form identifies a context exactly when its trace ID is valid, or when there
      is nothing in it to lose. */
  lemma {:induction false} TextRoundTrip(ctx: SpanContext)
    ensures FromStream(Stream(ctx.Print(), false)).0 == ctx.Bare()
            <==> ctx.traceID.IsValid() || ctx.Bare() == EMPTY_CONTEXT
  {
    if ctx.traceID.IsValid() {
      PrintedContextReadsBack(ctx);
    } else {
      InvalidTextIsRefused(ctx);
    }
  }
}
