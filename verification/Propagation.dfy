/**
 What the text propagators share: carriers and their header names, the hooks that differ
 between text maps and HTTP headers, and the extraction around the format's own.
 */
module Propagation {
  import opened SpanContexts
  import opened QueryEncoding

  /** One header, as set by a writer or shown by a reader. */
  type Header = (string, string)

  datatype Kind = TextMap | HttpHeaders(chars: CharType)

  datatype HeadersConfig = HeadersConfig(
    jaegerDebugHeader: string,
    jaegerBaggageHeader: string,
    traceContextHeaderName: string,
    traceBaggageHeaderPrefix: string)

  /** Empty names stand for the defaults. */
  function MakeHeadersConfig(debug: string, baggage: string, traceContext: string, prefix: string): HeadersConfig {
    HeadersConfig(
      if debug == "" then "jaeger-debug-id" else debug,
      if baggage == "" then "jaeger-baggage" else baggage,
      if traceContext == "" then "uber-trace-id" else traceContext,
      if prefix == "" then "uberctx-" else prefix)
  }

  /** Names that are configured are used, and the client's own ones otherwise. */
  lemma ConfiguredNames(debug: string, baggage: string, traceContext: string, prefix: string)
    ensures var h := MakeHeadersConfig(debug, baggage, traceContext, prefix);
            && h.jaegerDebugHeader != "" && h.jaegerDebugHeader in {debug, "jaeger-debug-id"}
            && h.jaegerBaggageHeader != "" && h.jaegerBaggageHeader in {baggage, "jaeger-baggage"}
            && h.traceContextHeaderName != "" && h.traceContextHeaderName in {traceContext, "uber-trace-id"}
            && h.traceBaggageHeaderPrefix != "" && h.traceBaggageHeaderPrefix in {prefix, "uberctx-"}
            && (debug != "" ==> h.jaegerDebugHeader == debug) && (baggage != "" ==> h.jaegerBaggageHeader == baggage)
            && (traceContext != "" ==> h.traceContextHeaderName == traceContext)
            && (prefix != "" ==> h.traceBaggageHeaderPrefix == prefix)
  {
  }

  function LowerChar(ch: char): char {
    if 'A' <= ch <= 'Z' then (ch as int + 32) as char else ch
  }

  function Lower(s: string): (t: string)
    ensures |t| == |s|
  {
    seq(|s|, i requires 0 <= i < |s| => LowerChar(s[i]))
  }

  function NormalizeKey(kind: Kind, key: string): (t: string)
    ensures |t| == |key|
  {
    if kind.HttpHeaders? then Lower(key) else key
  }

  function EncodeValue(kind: Kind, value: string): string {
    if kind.HttpHeaders? then Escape(kind.chars, value) else value
  }

  function DecodeValue(kind: Kind, value: string): string {
    if kind.HttpHeaders? then Unescape(value) else value
  }

  /** Every header of the carrier once, in some order. */
  ghost predicate Lists(listing: seq<Header>, carrier: map<string, string>) {
    && (forall i | 0 <= i < |listing| :: listing[i].0 in carrier && carrier[listing[i].0] == listing[i].1)
    && (forall i, j | 0 <= i < j < |listing| :: listing[i].0 != listing[j].0)
    && (forall key <- carrier :: exists i :: 0 <= i < |listing| && listing[i].0 == key)
  }

  /** What the reader shows for a listing: the same headers, except that HTTP may have changed
      the case of the names. */
  ghost predicate Shows(kind: Kind, entries: seq<Header>, listing: seq<Header>) {
    && |entries| == |listing|
    && forall i | 0 <= i < |entries| :: SameHeader(kind, entries[i], listing[i])
  }

  ghost predicate SameHeader(kind: Kind, shown: Header, listed: Header) {
    shown.1 == listed.1 && NormalizeKey(kind, shown.0) == NormalizeKey(kind, listed.0)
  }

  lemma ShowsFront(kind: Kind, entries: seq<Header>, listing: seq<Header>)
    requires Shows(kind, entries, listing) && listing != []
    ensures var n := |listing| - 1;
            && Shows(kind, entries[..n], listing[..n]) && SameHeader(kind, entries[n], listing[n])
            && listing == listing[..n] + [listing[n]] && entries == entries[..n] + [entries[n]]
  {
  }

  lemma ListsFront(listing: seq<Header>, carrier: map<string, string>)
    requires Lists(listing, carrier) && listing != []
    ensures var (key, value) := listing[|listing| - 1];
            && Lists(listing[..|listing| - 1], carrier - {key})
            && carrier == (carrier - {key})[key := value]
  {
    var front := listing[..|listing| - 1];
    var (key, value) := listing[|listing| - 1];
    forall k | k in carrier - {key} ensures exists i :: 0 <= i < |front| && front[i].0 == k {
      var i :| 0 <= i < |listing| && listing[i].0 == k;
      assert front[i].0 == k;
    }
  }

  /** The carrier after a sequence of Set calls. */
  function Collect(calls: seq<Header>): map<string, string> {
    if calls == [] then map[]
    else Collect(calls[..|calls| - 1])[calls[|calls| - 1].0 := calls[|calls| - 1].1]
  }

  /** The result of an extraction and the decoding errors it counted. */
  datatype Extraction = Extraction(ctx: SpanContext, decodingErrors: nat)

  /** The last value shown for the debug header, or "". */
  function DebugID(kind: Kind, headers: HeadersConfig, entries: seq<Header>): string {
    if entries == [] then ""
    else
      var last := entries[|entries| - 1];
      if NormalizeKey(kind, last.0) == headers.jaegerDebugHeader then last.1
      else DebugID(kind, headers, entries[..|entries| - 1])
  }

  /** Propagator::extract around the format's own extraction. */
  function WithDebugID(extracted: Extraction, debugID: string): Extraction {
    var ctx := extracted.ctx;
    if !ctx.traceID.IsValid() && ctx.baggage == map[] && debugID == "" then
      extracted.(ctx := EMPTY_CONTEXT)
    else
      extracted.(ctx := (if debugID == "" then ctx else ctx.Debugged()).(debugID := debugID))
  }

  method FindDebugID(kind: Kind, headers: HeadersConfig, entries: seq<Header>) returns (debugID: string)
    ensures debugID == DebugID(kind, headers, entries)
  {
    debugID := "";
    for i := 0 to |entries|
      invariant debugID == DebugID(kind, headers, entries[..i])
    {
      assert entries[..i + 1][..i] == entries[..i];
      if NormalizeKey(kind, entries[i].0) == headers.jaegerDebugHeader {
        debugID := entries[i].1;
      }
    }
    assert entries[..|entries|] == entries;
  }

  lemma {:induction false} NoDebugHeader(kind: Kind, headers: HeadersConfig, entries: seq<Header>)
    requires forall i | 0 <= i < |entries| :: NormalizeKey(kind, entries[i].0) != headers.jaegerDebugHeader
    ensures DebugID(kind, headers, entries) == ""
  {
    if entries != [] {
      NoDebugHeader(kind, headers, entries[..|entries| - 1]);
    }
  }

  lemma NormalizeConcat(kind: Kind, a: string, b: string)
    ensures NormalizeKey(kind, a + b) == NormalizeKey(kind, a) + NormalizeKey(kind, b)
  {
  }

  lemma NormalizeTwice(kind: Kind, key: string)
    ensures NormalizeKey(kind, NormalizeKey(kind, key)) == NormalizeKey(kind, key)
  {
  }

  // ---- The debug header ----

  predicate IsDebugHeader(kind: Kind, headers: HeadersConfig, entry: Header) {
    NormalizeKey(kind, entry.0) == headers.jaegerDebugHeader
  }

  function WithoutDebug(kind: Kind, headers: HeadersConfig, entries: seq<Header>): seq<Header> {
    if entries == [] then []
    else
      var n := |entries| - 1;
      WithoutDebug(kind, headers, entries[..n]) + if IsDebugHeader(kind, headers, entries[n]) then [] else [entries[n]]
  }

  lemma {:induction false} DebugIDIsLastShown(kind: Kind, headers: HeadersConfig, entries: seq<Header>, i: nat)
    requires i < |entries| && IsDebugHeader(kind, headers, entries[i])
    requires forall j | i < j < |entries| :: !IsDebugHeader(kind, headers, entries[j])
    ensures DebugID(kind, headers, entries) == entries[i].1
  {
    var n := |entries| - 1;
    if i < n {
      assert !IsDebugHeader(kind, headers, entries[n]);
      DebugIDIsLastShown(kind, headers, entries[..n], i);
    }
  }

  /** What a debug ID makes of a context: the ID, and the bits that force sampling.  The rest stays. */
  ghost predicate Forced(ctx: SpanContext, own: SpanContext, debugID: string) {
    && ctx.debugID == debugID
    && ctx.flags % 2 == 1 && ctx.flags / 2 % 2 == 1 && ctx.flags / 4 == own.flags / 4
    && ctx.traceID == own.traceID && ctx.spanID == own.spanID && ctx.parentID == own.parentID
    && ctx.baggage == own.baggage && ctx.traceState == own.traceState
  }

  lemma DebugIDForces(own: Extraction, debugID: string)
    requires debugID != ""
    ensures var got := WithDebugID(own, debugID);
            Forced(got.ctx, own.ctx, debugID) && got.decodingErrors == own.decodingErrors
  {
  }

  /** Without a debug ID, a context with a trace ID or baggage is the format's own, and any other one
      is empty. */
  lemma NoDebugIDKeeps(own: Extraction)
    requires own.ctx.debugID == ""
    ensures var got := WithDebugID(own, "");
            && got.decodingErrors == own.decodingErrors
            && got.ctx == if own.ctx.traceID.IsValid() || own.ctx.baggage != map[] then own.ctx else EMPTY_CONTEXT
  {
  }
}
