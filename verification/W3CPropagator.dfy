/**
 The W3C Trace Context format: a traceparent header of fixed shape, and a tracestate header.
 */
module W3CPropagation {
  import opened HexParsing
  import opened SpanContexts
  import opened QueryEncoding
  import opened QueryValues
  import opened Propagation

  const TRACE_PARENT := "traceparent"
  const TRACE_STATE := "tracestate"

  // ---- traceparent ----

  function WriteTraceParent(ctx: SpanContext): string {
    "00" + "-" + (PadHex(ctx.traceID.high, 16) + PadHex(ctx.traceID.low, 16))
    + "-" + PadHex(ctx.spanID, 16) + "-" + PadHex(ctx.flags, 2)
  }

  function TraceIDOf32(digits: string): TraceID
    requires AllHex(digits)
  {
    if |digits| != 32 then NO_TRACE
    else TraceID(DecodeHex(digits[..16], U64_RANGE), DecodeHex(digits[16..], U64_RANGE))
  }

  function ReadTraceParent(s0: Stream): (SpanContext, Stream) {
    var (zero1, s1) := Expect(s0, '0');
    if !zero1 then (EMPTY_CONTEXT, s1)
    else
      var (zero2, s2) := Expect(s1, '0');
      if !zero2 then (EMPTY_CONTEXT, s2)
      else
        var (dash1, s3) := Expect(s2, '-');
        if !dash1 then (EMPTY_CONTEXT, s3) else ReadAfterVersion(s3)
  }

  function ReadAfterVersion(s0: Stream): (SpanContext, Stream) {
    var (idDigits, s1) := Segment(s0, 32, '-', "");
    var traceID := TraceIDOf32(idDigits);
    if !traceID.IsValid() then (EMPTY_CONTEXT, s1)
    else
      var (dash2, s2) := Expect(s1, '-');
      if !dash2 then (EMPTY_CONTEXT, s2)
      else
        var (spanDigits, s3) := Segment(s2, 16, '-', "");
        if spanDigits == "" then (EMPTY_CONTEXT, s3)
        else
          var (dash3, s4) := Expect(s3, '-');
          if !dash3 then (EMPTY_CONTEXT, s4)
          else
            var (flagDigits, s5) := Segment(s4, 2, '-', "");
            if |flagDigits| != 2 then (EMPTY_CONTEXT, s5)
            else
              (SpanContext(traceID, DecodeHex(spanDigits, U64_RANGE), 0, DecodeHex(flagDigits, U8_RANGE),
                           map[], "", ""),
               s5.(failed := false))
  }

  method ReadTraceID(input: IStream) returns (traceID: TraceID)
    modifies input
    ensures var (digits, after) := Segment(old(input.Now()), 32, '-', "");
            traceID == TraceIDOf32(digits) && input.Now() == after
  {
    var buffer := input.ReadSegment(32, '-');
    if buffer == "" || |buffer| != 32 {
      return NO_TRACE;
    }
    var high := DecodeHexDigits(buffer[..16], U64_RANGE);
    var low := DecodeHexDigits(buffer[16..], U64_RANGE);
    return TraceID(high, low);
  }

  method ReadTraceParentFrom(input: IStream) returns (ctx: SpanContext)
    modifies input
    ensures (ctx, input.Now()) == ReadTraceParent(old(input.Now()))
  {
    var found := ExpectChar(input, '0');
    if !found {
      return EMPTY_CONTEXT;
    }
    found := ExpectChar(input, '0');
    if !found {
      return EMPTY_CONTEXT;
    }
    found := ExpectChar(input, '-');
    if !found {
      return EMPTY_CONTEXT;
    }
    var traceID := ReadTraceID(input);
    if !traceID.IsValid() {
      return EMPTY_CONTEXT;
    }
    found := ExpectChar(input, '-');
    if !found {
      return EMPTY_CONTEXT;
    }
    var buffer := input.ReadSegment(16, '-');
    if buffer == "" {
      return EMPTY_CONTEXT;
    }
    var spanID := DecodeHexDigits(buffer, U64_RANGE);
    found := ExpectChar(input, '-');
    if !found {
      return EMPTY_CONTEXT;
    }
    buffer := input.ReadSegment(2, '-');
    if buffer == "" || |buffer| != 2 {
      return EMPTY_CONTEXT;
    }
    var flags := DecodeHexDigits(buffer, U8_RANGE);
    input.Clear();
    return SpanContext(traceID, spanID, 0, flags, map[], "", "");
  }

  lemma TwoDigitFlags(flags: u8)
    ensures |PadHex(flags, 2)| == 2 && DecodeHex(PadHex(flags, 2), U8_RANGE) == flags
  {
    assert Pow16(1) == 16 && Pow16(2) == 256;
    HexFits(flags, 2);
    DecodeOfPadHex(flags, 2, U8_RANGE);
  }

  /** Section 3.2.2 of W3C Trace Context: version 00, then 32, 16 and 2 lower-case hex digits,
      separated by dashes. */
  lemma TraceParentShape(ctx: SpanContext)
    ensures var s := WriteTraceParent(ctx);
            && |s| == 55 && s[..3] == "00-" && s[35] == '-' && s[52] == '-'
            && forall i | 3 <= i < 55 && i != 35 && i != 52 :: '0' <= s[i] <= '9' || 'a' <= s[i] <= 'f'
  {
    PadHexExact(ctx.traceID.high);
    PadHexExact(ctx.traceID.low);
    PadHexExact(ctx.spanID);
    TwoDigitFlags(ctx.flags);
    HexIsLower(ctx.traceID.high);
    HexIsLower(ctx.traceID.low);
    HexIsLower(ctx.spanID);
    HexIsLower(ctx.flags);
  }

  lemma {:induction false} HexIsLower(v: nat)
    ensures forall i | 0 <= i < |Hex(v)| :: '0' <= Hex(v)[i] <= '9' || 'a' <= Hex(v)[i] <= 'f'
  {
    if v >= 16 {
      HexIsLower(v / 16);
    }
  }

  lemma VersionReads(tail: string)
    ensures ReadTraceParent(Stream("00-" + tail, false)) == ReadAfterVersion(Stream(tail, false))
  {
    var s := "00-" + tail;
    assert s[1..][1..][1..] == tail;
  }

  lemma IdentityReads(high: u64, low: u64)
    ensures var digits := PadHex(high, 16) + PadHex(low, 16);
            |digits| == 32 && TraceIDOf32(digits) == TraceID(high, low)
  {
    PadHexExact(high);
    PadHexExact(low);
    DecodeOfPadHex(high, 16, U64_RANGE);
    DecodeOfPadHex(low, 16, U64_RANGE);
    var digits := PadHex(high, 16) + PadHex(low, 16);
    assert digits[..16] == PadHex(high, 16) && digits[16..] == PadHex(low, 16);
  }

  lemma FlagPairReads(flags: u8)
    ensures var (digits, after) := Segment(Stream(PadHex(flags, 2), false), 2, '-', "");
            |digits| == 2 && !after.failed && DecodeHex(digits, U8_RANGE) == flags
  {
    var digits := PadHex(flags, 2);
    TwoDigitFlags(flags);
    SegmentReadsDigits(digits, "", 2, '-', "");
    assert digits + "" == digits && "" + digits == digits;
  }

  /** A written traceparent reads back, for every valid trace ID. */
  lemma {:induction false} TraceParentReadsBack(ctx: SpanContext)
    ensures ReadTraceParent(Stream(WriteTraceParent(ctx), false)).0
         == if ctx.traceID.IsValid() then ctx.Bare().(parentID := 0) else EMPTY_CONTEXT
    ensures ctx.traceID.IsValid() ==> !ReadTraceParent(Stream(WriteTraceParent(ctx), false)).1.failed
  {
    var id, span := PadHex(ctx.traceID.high, 16) + PadHex(ctx.traceID.low, 16), PadHex(ctx.spanID, 16);
    var flags := PadHex(ctx.flags, 2);
    assert WriteTraceParent(ctx) == "00-" + (id + "-" + (span + "-" + flags));
    VersionReads(id + "-" + (span + "-" + flags));
    IdentityReads(ctx.traceID.high, ctx.traceID.low);
    FieldReads(id, '-', span + "-" + flags, 32);
    PadHexExact(ctx.spanID);
    DecodeOfPadHex(ctx.spanID, 16, U64_RANGE);
    FieldReads(span, '-', flags, 16);
    FlagPairReads(ctx.flags);
  }

  // ---- Extraction and injection ----

  datatype Progress = Going(ctx: SpanContext, traceState: string) | Corrupted

  function ReadHeader(kind: Kind, p: Progress, entry: Header): Progress
    requires p.Going?
  {
    var key := NormalizeKey(kind, entry.0);
    if key == TRACE_PARENT then
      var (ctx, after) := ReadTraceParent(Stream(DecodeValue(kind, entry.1), false));
      if after.failed || ctx == EMPTY_CONTEXT then Corrupted else p.(ctx := ctx)
    else if key == TRACE_STATE then p.(traceState := DecodeValue(kind, entry.1))
    else p
  }

  function ReadHeaders(kind: Kind, entries: seq<Header>): Progress {
    if entries == [] then Going(EMPTY_CONTEXT, "")
    else
      var p := ReadHeaders(kind, entries[..|entries| - 1]);
      if p.Corrupted? then p else ReadHeader(kind, p, entries[|entries| - 1])
  }

  /** doExtract. */
  function OwnExtract(kind: Kind, entries: seq<Header>): Extraction {
    match ReadHeaders(kind, entries)
    case Corrupted => Extraction(EMPTY_CONTEXT, 1)
    case Going(ctx, traceState) => Extraction(ctx.(baggage := map[], debugID := "", traceState := traceState), 0)
  }

  function Extract(kind: Kind, headers: HeadersConfig, entries: seq<Header>): Extraction {
    WithDebugID(OwnExtract(kind, entries), DebugID(kind, headers, entries))
  }

  method ExtractContext(kind: Kind, headers: HeadersConfig, entries: seq<Header>) returns (result: Extraction)
    ensures result == Extract(kind, headers, entries)
  {
    var debugID := FindDebugID(kind, headers, entries);
    var ctx, traceState := EMPTY_CONTEXT, "";
    assert entries[..|entries|] == entries;
    for i := 0 to |entries|
      invariant ReadHeaders(kind, entries[..i]) == Going(ctx, traceState)
    {
      var key, value := NormalizeKey(kind, entries[i].0), entries[i].1;
      assert entries[..i + 1][..i] == entries[..i];
      if key == TRACE_PARENT {
        var iss := new IStream(DecodeValue(kind, value));
        ctx := ReadTraceParentFrom(iss);
        if iss.failed || ctx == EMPTY_CONTEXT {
          StaysCorrupted(kind, entries, i + 1);
          return WithDebugID(Extraction(EMPTY_CONTEXT, 1), debugID);
        }
      } else if key == TRACE_STATE {
        traceState := DecodeValue(kind, value);
      }
    }
    return WithDebugID(Extraction(ctx.(baggage := map[], debugID := "", traceState := traceState), 0), debugID);
  }

  lemma {:induction false} StaysCorrupted(kind: Kind, entries: seq<Header>, n: nat)
    requires n <= |entries| && ReadHeaders(kind, entries[..n]).Corrupted?
    ensures ReadHeaders(kind, entries).Corrupted?
    decreases |entries|
  {
    if n == |entries| {
      assert entries[..n] == entries;
    } else {
      assert entries[..|entries| - 1][..n] == entries[..n];
      StaysCorrupted(kind, entries[..|entries| - 1], n);
    }
  }

  /** The trace state is written as it is, although HTTP extraction unescapes it. */
  function Inject(ctx: SpanContext): seq<Header> {
    [(TRACE_PARENT, WriteTraceParent(ctx))]
    + if ctx.traceState == "" then [] else [(TRACE_STATE, ctx.traceState)]
  }

  ghost predicate Written(ctx: SpanContext, h: Header) {
    || h == (TRACE_PARENT, WriteTraceParent(ctx))
    || (h == (TRACE_STATE, ctx.traceState) && ctx.traceState != "")
  }

  ghost predicate AllWritten(ctx: SpanContext, listing: seq<Header>) {
    forall i | 0 <= i < |listing| :: Written(ctx, listing[i])
  }

  ghost predicate ShowsKey(shown: seq<Header>, key: string) {
    exists i :: 0 <= i < |shown| && shown[i].0 == key
  }

  lemma NamesAreNormal(kind: Kind)
    ensures NormalizeKey(kind, TRACE_PARENT) == TRACE_PARENT && NormalizeKey(kind, TRACE_STATE) == TRACE_STATE
  {
    assert Lower("traceparent") == "traceparent";
    assert Lower("tracestate") == "tracestate";
  }

  lemma ListingIsWritten(ctx: SpanContext, listing: seq<Header>)
    requires Lists(listing, Collect(Inject(ctx)))
    ensures AllWritten(ctx, listing)
    ensures (TRACE_PARENT, WriteTraceParent(ctx)) in listing && ShowsKey(listing, TRACE_PARENT)
    ensures ctx.traceState != "" <==> ShowsKey(listing, TRACE_STATE)
  {
    var calls := Inject(ctx);
    assert Collect([calls[0]]) == map[TRACE_PARENT := WriteTraceParent(ctx)] by {
      assert [calls[0]][..0] == [];
    }
    if ctx.traceState != "" {
      assert calls[..1] == [calls[0]];
    }
    assert |TRACE_PARENT| != |TRACE_STATE|;
    var carrier := Collect(calls);
    assert TRACE_PARENT in carrier && (ctx.traceState != "" <==> TRACE_STATE in carrier);
    var i :| 0 <= i < |listing| && listing[i].0 == TRACE_PARENT;
    assert listing[i] == (TRACE_PARENT, WriteTraceParent(ctx));
  }

  ghost predicate Recovered(kind: Kind, ctx: SpanContext, shown: seq<Header>, p: Progress) {
    && p.Going?
    && p.ctx == (if ShowsKey(shown, TRACE_PARENT) then ctx.Bare().(parentID := 0) else EMPTY_CONTEXT)
    && p.traceState == (if ShowsKey(shown, TRACE_STATE) then DecodeValue(kind, ctx.traceState) else "")
  }

  lemma HeaderRecovers(kind: Kind, ctx: SpanContext, shown: seq<Header>, before: seq<Header>, h: Header, entry: Header)
    requires ctx.traceID.IsValid() && Recovered(kind, ctx, shown, ReadHeaders(kind, before))
    requires Written(ctx, h) && SameHeader(kind, entry, h)
    ensures Recovered(kind, ctx, shown + [h], ReadHeaders(kind, before + [entry]))
  {
    assert (before + [entry])[..|before|] == before;
    NamesAreNormal(kind);
    TraceParentIsPlain(kind, ctx);
    TraceParentReadsBack(ctx);
    var longer := shown + [h];
    assert longer[|shown|] == h;
    assert forall i | 0 <= i < |shown| :: longer[i] == shown[i];
    assert |TRACE_PARENT| != |TRACE_STATE|;
  }

  lemma TraceParentIsPlain(kind: Kind, ctx: SpanContext)
    ensures DecodeValue(kind, WriteTraceParent(ctx)) == WriteTraceParent(ctx)
  {
    UnescapeIsIdentityWithoutPercent(WriteTraceParent(ctx));
  }

  lemma {:induction false} HeadersRecover(kind: Kind, ctx: SpanContext, listing: seq<Header>, entries: seq<Header>)
    requires ctx.traceID.IsValid() && Shows(kind, entries, listing)
    requires AllWritten(ctx, listing)
    ensures Recovered(kind, ctx, listing, ReadHeaders(kind, entries))
    decreases |listing|
  {
    if listing != [] {
      var n := |listing| - 1;
      ShowsFront(kind, entries, listing);
      HeadersRecover(kind, ctx, listing[..n], entries[..n]);
      HeaderRecovers(kind, ctx, listing[..n], entries[..n], listing[n], entries[n]);
    }
  }

  lemma NextHeader(kind: Kind, before: seq<Header>, entry: Header)
    ensures var p := ReadHeaders(kind, before);
            ReadHeaders(kind, before + [entry]) == if p.Corrupted? then p else ReadHeader(kind, p, entry)
  {
    assert (before + [entry])[..|before|] == before;
  }

  /** A header that ends the extraction wherever it is met. */
  ghost predicate Corrupts(kind: Kind, h: Header) {
    forall p: Progress, entry: Header | p.Going? && SameHeader(kind, entry, h) :: ReadHeader(kind, p, entry).Corrupted?
  }

  lemma InvalidHeaderCorrupts(kind: Kind, ctx: SpanContext)
    requires !ctx.traceID.IsValid()
    ensures Corrupts(kind, (TRACE_PARENT, WriteTraceParent(ctx)))
  {
    NamesAreNormal(kind);
    TraceParentIsPlain(kind, ctx);
    TraceParentReadsBack(ctx);
  }

  lemma CorruptedBy(kind: Kind, h: Header, before: seq<Header>, entry: Header)
    requires Corrupts(kind, h) && SameHeader(kind, entry, h)
    ensures ReadHeaders(kind, before + [entry]).Corrupted?
  {
    NextHeader(kind, before, entry);
  }

  lemma CorruptsWherever(kind: Kind, h: Header, listing: seq<Header>, entries: seq<Header>)
    requires Corrupts(kind, h) && h in listing && Shows(kind, entries, listing)
    ensures ReadHeaders(kind, entries).Corrupted?
  {
    var i :| 0 <= i < |listing| && listing[i] == h;
    assert SameHeader(kind, entries[i], listing[i]);
    CorruptedBy(kind, h, entries[..i], entries[i]);
    assert entries[..i] + [entries[i]] == entries[..i + 1];
    StaysCorrupted(kind, entries, i + 1);
  }

  lemma InvalidIsCorrupted(kind: Kind, ctx: SpanContext, listing: seq<Header>, entries: seq<Header>)
    requires !ctx.traceID.IsValid() && Shows(kind, entries, listing)
    requires (TRACE_PARENT, WriteTraceParent(ctx)) in listing
    ensures ReadHeaders(kind, entries).Corrupted?
  {
    InvalidHeaderCorrupts(kind, ctx);
    CorruptsWherever(kind, (TRACE_PARENT, WriteTraceParent(ctx)), listing, entries);
  }

  lemma NoDebugShown(kind: Kind, headers: HeadersConfig, ctx: SpanContext, listing: seq<Header>, entries: seq<Header>)
    requires headers.jaegerDebugHeader != TRACE_PARENT && headers.jaegerDebugHeader != TRACE_STATE
    requires AllWritten(ctx, listing) && Shows(kind, entries, listing)
    ensures DebugID(kind, headers, entries) == ""
  {
    NamesAreNormal(kind);
    forall i | 0 <= i < |entries|
      ensures NormalizeKey(kind, entries[i].0) != headers.jaegerDebugHeader
    {
      assert Written(ctx, listing[i]) && SameHeader(kind, entries[i], listing[i]);
    }
    NoDebugHeader(kind, headers, entries);
  }

  /** Extraction after injection, for every order of the headers and any change of case on
      HTTP: identity, flags and trace state come back, the parent ID is 0 and the baggage is
      gone, exactly when the trace ID is valid and, on HTTP, unescaping leaves the trace state
      alone, or when there was nothing to carry. */
  lemma W3CRoundTrip(kind: Kind, headers: HeadersConfig, ctx: SpanContext, listing: seq<Header>, entries: seq<Header>)
    requires headers.jaegerDebugHeader != TRACE_PARENT && headers.jaegerDebugHeader != TRACE_STATE
    requires Lists(listing, Collect(Inject(ctx))) && Shows(kind, entries, listing)
    ensures var carried := ctx.(parentID := 0, baggage := map[], debugID := "");
            Extract(kind, headers, entries).ctx == carried <==>
              || carried == EMPTY_CONTEXT
              || (ctx.traceID.IsValid() && (kind.HttpHeaders? ==> Inert(ctx.traceState)))
    ensures Extract(kind, headers, entries).decodingErrors == if ctx.traceID.IsValid() then 0 else 1
  {
    ListingIsWritten(ctx, listing);
    NoDebugShown(kind, headers, ctx, listing, entries);
    UnescapeFixes(ctx.traceState);
    if ctx.traceID.IsValid() {
      HeadersRecover(kind, ctx, listing, entries);
    } else {
      InvalidIsCorrupted(kind, ctx, listing, entries);
    }
  }

  // ---- The debug header ----

  lemma DebugHeaderIsSkipped(kind: Kind, headers: HeadersConfig, p: Progress, entry: Header)
    requires headers.jaegerDebugHeader != TRACE_PARENT && headers.jaegerDebugHeader != TRACE_STATE
    requires IsDebugHeader(kind, headers, entry) && p.Going?
    ensures ReadHeader(kind, p, entry) == p
  {
  }

  /** Two lists of headers that read alike. */
  ghost predicate SameReading(kind: Kind, a: seq<Header>, b: seq<Header>) {
    forall k: Kind | k == kind :: ReadHeaders(k, a) == ReadHeaders(k, b)
  }

  lemma NextUnlessDebug(kind: Kind, headers: HeadersConfig, before: seq<Header>, kept: seq<Header>, entry: Header)
    requires headers.jaegerDebugHeader != TRACE_PARENT && headers.jaegerDebugHeader != TRACE_STATE
    requires SameReading(kind, before, kept)
    ensures SameReading(kind, before + [entry], kept + if IsDebugHeader(kind, headers, entry) then [] else [entry])
  {
    var p := ReadHeaders(kind, before);
    NextHeader(kind, before, entry);
    if !IsDebugHeader(kind, headers, entry) {
      NextHeader(kind, kept, entry);
    } else {
      assert kept + [] == kept;
      if p.Going? {
        DebugHeaderIsSkipped(kind, headers, p, entry);
      }
    }
  }

  lemma {:induction false} DebugHeadersAreSkipped(kind: Kind, headers: HeadersConfig, entries: seq<Header>)
    requires headers.jaegerDebugHeader != TRACE_PARENT && headers.jaegerDebugHeader != TRACE_STATE
    ensures SameReading(kind, entries, WithoutDebug(kind, headers, entries))
  {
    if entries != [] {
      var n := |entries| - 1;
      DebugHeadersAreSkipped(kind, headers, entries[..n]);
      NextUnlessDebug(kind, headers, entries[..n], WithoutDebug(kind, headers, entries[..n]), entries[n]);
      assert entries == entries[..n] + [entries[n]];
    }
  }

  /** A debug header with a value forces sampling of what the other headers give, under its value; of
      several the last one counts. */
  lemma DebugHeaderForces(kind: Kind, headers: HeadersConfig, entries: seq<Header>, i: nat)
    requires headers.jaegerDebugHeader != TRACE_PARENT && headers.jaegerDebugHeader != TRACE_STATE
    requires i < |entries| && IsDebugHeader(kind, headers, entries[i]) && entries[i].1 != ""
    requires forall j | i < j < |entries| :: !IsDebugHeader(kind, headers, entries[j])
    ensures var own := OwnExtract(kind, WithoutDebug(kind, headers, entries));
            var got := Extract(kind, headers, entries);
            Forced(got.ctx, own.ctx, entries[i].1) && got.decodingErrors == own.decodingErrors
  {
    DebugHeadersAreSkipped(kind, headers, entries);
    DebugIDIsLastShown(kind, headers, entries, i);
    DebugIDForces(OwnExtract(kind, entries), entries[i].1);
  }
}
