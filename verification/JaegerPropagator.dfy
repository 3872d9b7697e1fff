/**
 The Jaeger format: the printed context in one header, and one header per baggage item under
 a common prefix.
 */
module JaegerPropagation {
  import opened HexParsing
  import opened SpanContexts
  import opened QueryEncoding
  import opened QueryValues
  import opened Propagation

  // ---- Extraction ----

  /** The header with manually added baggage: "key=value" pieces separated by commas. */
  function CommaSeparatedMap(s: string): map<string, string> {
    var i := IndexOf(s, ',');
    if i == |s| then CommaPiece(s) else CommaPiece(s[..i]) + CommaSeparatedMap(s[i + 1..])
  }

  function CommaPiece(piece: string): map<string, string> {
    if IndexOf(piece, '=') == |piece| then map[] else map[KeyPart(piece) := ValuePart(piece)]
  }

  predicate StartsWith(s: string, prefix: string) {
    |prefix| <= |s| && s[..|prefix|] == prefix
  }

  /** State of the loop over the headers; `Corrupted` ends it. */
  datatype Progress = Going(ctx: SpanContext, baggage: map<string, string>) | Corrupted

  function ReadHeader(kind: Kind, headers: HeadersConfig, p: Progress, entry: Header): Progress
    requires p.Going?
  {
    var key := NormalizeKey(kind, entry.0);
    var prefix := headers.traceBaggageHeaderPrefix;
    if key == headers.traceContextHeaderName then
      var (ctx, after) := FromStream(Stream(DecodeValue(kind, entry.1), false));
      if after.failed || ctx == EMPTY_CONTEXT then Corrupted else p.(ctx := ctx)
    else if key == headers.jaegerBaggageHeader then
      p.(baggage := p.baggage + CommaSeparatedMap(Unescape(entry.1)))
    else if StartsWith(key, prefix) then
      p.(baggage := p.baggage[key[|prefix|..] := DecodeValue(kind, entry.1)])
    else p
  }

  function ReadHeaders(kind: Kind, headers: HeadersConfig, entries: seq<Header>): Progress {
    if entries == [] then Going(EMPTY_CONTEXT, map[])
    else
      var p := ReadHeaders(kind, headers, entries[..|entries| - 1]);
      if p.Corrupted? then p else ReadHeader(kind, headers, p, entries[|entries| - 1])
  }

  /** doExtract. */
  function OwnExtract(kind: Kind, headers: HeadersConfig, entries: seq<Header>): Extraction {
    match ReadHeaders(kind, headers, entries)
    case Corrupted => Extraction(EMPTY_CONTEXT, 1)
    case Going(ctx, baggage) => Extraction(ctx.Bare().(baggage := baggage), 0)
  }

  function Extract(kind: Kind, headers: HeadersConfig, entries: seq<Header>): Extraction {
    WithDebugID(OwnExtract(kind, headers, entries), DebugID(kind, headers, entries))
  }

  lemma MapsAssociate(a: map<string, string>, b: map<string, string>, c: map<string, string>)
    ensures (a + b) + c == a + (b + c)
  {
  }

  method AddPiece(items: map<string, string>, piece: string) returns (more: map<string, string>)
    ensures more == items + CommaPiece(piece)
  {
    var eqPos := IndexOf(piece, '=');
    if eqPos == |piece| {
      return items;
    }
    more := items[piece[..eqPos] := piece[eqPos + 1..]];
  }

  method ParseCommaSeparatedMap(escaped: string) returns (items: map<string, string>)
    ensures items == CommaSeparatedMap(Unescape(escaped))
  {
    ghost var all := Unescape(escaped);
    items := map[];
    var rest := Unescape(escaped);
    var end := IndexOf(rest, ',');
    while end < |rest|
      invariant end == IndexOf(rest, ',')
      invariant items + CommaSeparatedMap(rest) == CommaSeparatedMap(all)
      decreases |rest|
    {
      MapsAssociate(items, CommaPiece(rest[..end]), CommaSeparatedMap(rest[end + 1..]));
      items := AddPiece(items, rest[..end]);
      rest := rest[end + 1..];
      end := IndexOf(rest, ',');
    }
    items := AddPiece(items, rest);
  }

  method ExtractContext(kind: Kind, headers: HeadersConfig, entries: seq<Header>) returns (result: Extraction)
    ensures result == Extract(kind, headers, entries)
  {
    var debugID := FindDebugID(kind, headers, entries);
    var ctx, baggage := EMPTY_CONTEXT, map[];
    assert entries[..|entries|] == entries;
    for i := 0 to |entries|
      invariant ReadHeaders(kind, headers, entries[..i]) == Going(ctx, baggage)
    {
      var key, value := NormalizeKey(kind, entries[i].0), entries[i].1;
      assert entries[..i + 1][..i] == entries[..i];
      if key == headers.traceContextHeaderName {
        var iss := new IStream(DecodeValue(kind, value));
        ctx := ReadSpanContext(iss);
        if iss.failed || ctx == EMPTY_CONTEXT {
          StaysCorrupted(kind, headers, entries, i + 1);
          return WithDebugID(Extraction(EMPTY_CONTEXT, 1), debugID);
        }
      } else if key == headers.jaegerBaggageHeader {
        var items := ParseCommaSeparatedMap(value);
        baggage := baggage + items;
      } else {
        var prefix := headers.traceBaggageHeaderPrefix;
        if |key| >= |prefix| && key[..|prefix|] == prefix {
          baggage := baggage[key[|prefix|..] := DecodeValue(kind, value)];
        }
      }
    }
    return WithDebugID(Extraction(ctx.Bare().(baggage := baggage), 0), debugID);
  }

  lemma {:induction false} StaysCorrupted(kind: Kind, headers: HeadersConfig, entries: seq<Header>, n: nat)
    requires n <= |entries| && ReadHeaders(kind, headers, entries[..n]).Corrupted?
    ensures ReadHeaders(kind, headers, entries).Corrupted?
    decreases |entries|
  {
    if n == |entries| {
      assert entries[..n] == entries;
    } else {
      assert entries[..|entries| - 1][..n] == entries[..n];
      StaysCorrupted(kind, headers, entries[..|entries| - 1], n);
    }
  }

  // ---- Injection ----

  /** The Set calls of an injection that meets the baggage items in the given order. */
  function Inject(kind: Kind, headers: HeadersConfig, ctx: SpanContext, items: seq<Header>): seq<Header> {
    if items == [] then [(headers.traceContextHeaderName, ctx.Print())]
    else
      var (key, value) := items[|items| - 1];
      Inject(kind, headers, ctx, items[..|items| - 1])
      + [(headers.traceBaggageHeaderPrefix + key, EncodeValue(kind, value))]
  }

  /** A carrier that holds the context and exactly the given baggage. */
  ghost predicate Carries(kind: Kind, headers: HeadersConfig, ctx: SpanContext, baggage: map<string, string>,
                          carrier: map<string, string>)
  {
    var trace, prefix := headers.traceContextHeaderName, headers.traceBaggageHeaderPrefix;
    && trace in carrier && carrier[trace] == ctx.Print()
    && (forall k <- baggage :: prefix + k in carrier && carrier[prefix + k] == EncodeValue(kind, baggage[k]))
    && (forall key <- carrier :: key == trace || (StartsWith(key, prefix) && key[|prefix|..] in baggage))
  }

  /** Names that keep the headers apart: the written ones survive normalisation, and neither
      the context header, the debug header nor the baggage header looks like baggage. */
  ghost predicate NamesApart(kind: Kind, headers: HeadersConfig) {
    var prefix := headers.traceBaggageHeaderPrefix;
    && NormalizeKey(kind, headers.traceContextHeaderName) == headers.traceContextHeaderName
    && NormalizeKey(kind, prefix) == prefix
    && headers.jaegerDebugHeader != headers.traceContextHeaderName
    && !StartsWith(headers.traceContextHeaderName, prefix)
    && !StartsWith(headers.jaegerDebugHeader, prefix)
    && !StartsWith(headers.jaegerBaggageHeader, prefix)
  }

  lemma DefaultNamesAreApart(kind: Kind)
    ensures NamesApart(kind, MakeHeadersConfig("", "", "", ""))
  {
    var h := MakeHeadersConfig("", "", "", "");
    assert Lower("uber-trace-id") == "uber-trace-id";
    assert Lower("uberctx-") == "uberctx-";
    assert "uber-trace-id"[4] != "uberctx-"[4];
    assert "jaeger-debug-id"[0] != "uberctx-"[0];
    assert "jaeger-baggage"[0] != "uberctx-"[0];
  }

  lemma SetCarries(kind: Kind, headers: HeadersConfig, ctx: SpanContext,
                   baggage: map<string, string>, carrier: map<string, string>, key: string, value: string)
    requires NamesApart(kind, headers) && Carries(kind, headers, ctx, baggage, carrier)
    ensures Carries(kind, headers, ctx, baggage[key := value],
                    carrier[headers.traceBaggageHeaderPrefix + key := EncodeValue(kind, value)])
  {
    var prefix := headers.traceBaggageHeaderPrefix;
    assert StartsWith(prefix + key, prefix) && (prefix + key)[|prefix|..] == key;
    forall k | k in baggage && k != key ensures prefix + k != prefix + key {
      assert (prefix + k)[|prefix|..] == k;
    }
  }

  lemma {:induction false} InjectionCarries(kind: Kind, headers: HeadersConfig, ctx: SpanContext,
                                            items: seq<Header>, baggage: map<string, string>)
    requires NamesApart(kind, headers) && Lists(items, baggage)
    ensures Carries(kind, headers, ctx, baggage, Collect(Inject(kind, headers, ctx, items)))
    decreases |items|
  {
    var calls := Inject(kind, headers, ctx, items);
    if items == [] {
      assert calls[..0] == [];
      assert forall k <- baggage :: false;
    } else {
      var front := items[..|items| - 1];
      var (key, value) := items[|items| - 1];
      ListsFront(items, baggage);
      InjectionCarries(kind, headers, ctx, front, baggage - {key});
      assert calls[..|calls| - 1] == Inject(kind, headers, ctx, front);
      SetCarries(kind, headers, ctx, baggage - {key}, Collect(Inject(kind, headers, ctx, front)), key, value);
    }
  }

  // ---- Round trip ----

  /** What decoding makes of an encoded value. */
  function Recoded(kind: Kind, value: string): string {
    DecodeValue(kind, EncodeValue(kind, value))
  }

  predicate KeyNormal(kind: Kind, key: string) {
    NormalizeKey(kind, key) == key
  }

  lemma PrintedContextIsPlain(kind: Kind, ctx: SpanContext)
    ensures DecodeValue(kind, ctx.Print()) == ctx.Print()
  {
    UnescapeIsIdentityWithoutPercent(ctx.Print());
  }

  /** How far extraction has come after showing a part of the carrier: the context once its
      header was shown, and an item for each baggage header.  Names come back normalised. */
  ghost predicate Recovered(kind: Kind, headers: HeadersConfig, ctx: SpanContext, shown: seq<Header>, p: Progress) {
    var trace, prefix := headers.traceContextHeaderName, headers.traceBaggageHeaderPrefix;
    && p.Going?
    && p.ctx == (if ShowsKey(shown, trace) then ctx.Bare() else EMPTY_CONTEXT)
    && (forall key <- p.baggage :: KeyNormal(kind, key))
    && (AllNormal(kind, ctx.baggage) ==>
          && (forall k <- p.baggage :: k in ctx.baggage && p.baggage[k] == Recoded(kind, ctx.baggage[k]))
          && (forall k <- ctx.baggage :: ShowsKey(shown, prefix + k) ==> k in p.baggage))
  }

  ghost predicate ShowsKey(shown: seq<Header>, key: string) {
    exists i :: 0 <= i < |shown| && shown[i].0 == key
  }

  ghost predicate AllNormal(kind: Kind, baggage: map<string, string>) {
    forall k <- baggage :: KeyNormal(kind, k)
  }

  /** A header that an injection wrote. */
  ghost predicate Written(kind: Kind, headers: HeadersConfig, ctx: SpanContext, h: Header) {
    var prefix := headers.traceBaggageHeaderPrefix;
    || h == (headers.traceContextHeaderName, ctx.Print())
    || (&& StartsWith(h.0, prefix) && h.0[|prefix|..] in ctx.baggage
        && h.1 == EncodeValue(kind, ctx.baggage[h.0[|prefix|..]]))
  }

  ghost predicate AllWritten(kind: Kind, headers: HeadersConfig, ctx: SpanContext, listing: seq<Header>) {
    forall i | 0 <= i < |listing| :: Written(kind, headers, ctx, listing[i])
  }

  /** A listing of the carrier shows written headers only, and all of them. */
  lemma ListingIsWritten(kind: Kind, headers: HeadersConfig, ctx: SpanContext,
                         carrier: map<string, string>, listing: seq<Header>)
    requires Carries(kind, headers, ctx, ctx.baggage, carrier) && Lists(listing, carrier)
    ensures AllWritten(kind, headers, ctx, listing)
    ensures ShowsKey(listing, headers.traceContextHeaderName)
    ensures forall k <- ctx.baggage :: ShowsKey(listing, headers.traceBaggageHeaderPrefix + k)
  {
    var prefix := headers.traceBaggageHeaderPrefix;
    forall i | 0 <= i < |listing| ensures Written(kind, headers, ctx, listing[i]) {
      var key := listing[i].0;
      assert key in carrier;
      if key != headers.traceContextHeaderName {
        assert key == prefix + key[|prefix|..];
      }
    }
  }

  lemma ContextHeaderRecovers(kind: Kind, headers: HeadersConfig, ctx: SpanContext,
                              shown: seq<Header>, p: Progress, h: Header, entry: Header)
    requires NamesApart(kind, headers) && ctx.traceID.IsValid() && Recovered(kind, headers, ctx, shown, p)
    requires h == (headers.traceContextHeaderName, ctx.Print())
    requires SameHeader(kind, entry, h)
    ensures Recovered(kind, headers, ctx, shown + [h], ReadHeader(kind, headers, p, entry))
  {
    PrintedContextIsPlain(kind, ctx);
    PrintedContextReadsBack(ctx);
    var trace, prefix, longer := headers.traceContextHeaderName, headers.traceBaggageHeaderPrefix, shown + [h];
    assert longer[|shown|] == h;
    forall k | k in ctx.baggage && ShowsKey(longer, prefix + k)
      ensures ShowsKey(shown, prefix + k)
    {
      assert StartsWith(prefix + k, prefix);
    }
  }

  lemma BaggageHeaderRecovers(kind: Kind, headers: HeadersConfig, ctx: SpanContext,
                              shown: seq<Header>, p: Progress, h: Header, entry: Header)
    requires NamesApart(kind, headers) && Recovered(kind, headers, ctx, shown, p)
    requires var prefix := headers.traceBaggageHeaderPrefix;
             && StartsWith(h.0, prefix) && h.0[|prefix|..] in ctx.baggage
             && h.1 == EncodeValue(kind, ctx.baggage[h.0[|prefix|..]])
    requires SameHeader(kind, entry, h)
    ensures Recovered(kind, headers, ctx, shown + [h], ReadHeader(kind, headers, p, entry))
  {
    var trace, prefix := headers.traceContextHeaderName, headers.traceBaggageHeaderPrefix;
    var k, key := h.0[|prefix|..], NormalizeKey(kind, entry.0);
    assert h.0 == prefix + k;
    NormalizeConcat(kind, prefix, k);
    NormalizeTwice(kind, k);
    assert StartsWith(key, prefix) && key[|prefix|..] == NormalizeKey(kind, k);
    var q := ReadHeader(kind, headers, p, entry);
    assert q == p.(baggage := p.baggage[NormalizeKey(kind, k) := Recoded(kind, ctx.baggage[k])]);
    var longer := shown + [h];
    assert ShowsKey(longer, trace) <==> ShowsKey(shown, trace) by {
      if ShowsKey(shown, trace) {
        var i :| 0 <= i < |shown| && shown[i].0 == trace;
        assert longer[i].0 == trace;
      }
    }
    forall k' | k' in ctx.baggage && ShowsKey(longer, prefix + k')
      ensures k' == k || ShowsKey(shown, prefix + k')
    {
      var i :| 0 <= i < |longer| && longer[i].0 == prefix + k';
      if i == |shown| {
        assert (prefix + k')[|prefix|..] == k';
      }
    }
  }

  lemma NextHeader(kind: Kind, headers: HeadersConfig, before: seq<Header>, entry: Header)
    ensures var p := ReadHeaders(kind, headers, before);
            ReadHeaders(kind, headers, before + [entry])
            == if p.Corrupted? then p else ReadHeader(kind, headers, p, entry)
  {
    assert (before + [entry])[..|before|] == before;
  }

  lemma WrittenHeaderRecovers(kind: Kind, headers: HeadersConfig, ctx: SpanContext,
                              shown: seq<Header>, p: Progress, h: Header, entry: Header)
    requires NamesApart(kind, headers) && ctx.traceID.IsValid()
    requires Recovered(kind, headers, ctx, shown, p)
    requires Written(kind, headers, ctx, h) && SameHeader(kind, entry, h)
    ensures Recovered(kind, headers, ctx, shown + [h], ReadHeader(kind, headers, p, entry))
  {
    if h == (headers.traceContextHeaderName, ctx.Print()) {
      ContextHeaderRecovers(kind, headers, ctx, shown, p, h, entry);
    } else {
      BaggageHeaderRecovers(kind, headers, ctx, shown, p, h, entry);
    }
  }

  lemma HeaderRecovers(kind: Kind, headers: HeadersConfig, ctx: SpanContext,
                       shown: seq<Header>, before: seq<Header>, h: Header, entry: Header)
    requires NamesApart(kind, headers) && ctx.traceID.IsValid()
    requires Recovered(kind, headers, ctx, shown, ReadHeaders(kind, headers, before))
    requires Written(kind, headers, ctx, h)
    requires SameHeader(kind, entry, h)
    ensures Recovered(kind, headers, ctx, shown + [h], ReadHeaders(kind, headers, before + [entry]))
  {
    NextHeader(kind, headers, before, entry);
    WrittenHeaderRecovers(kind, headers, ctx, shown, ReadHeaders(kind, headers, before), h, entry);
  }

  /** Showing the headers of a listing one after the other. */
  lemma {:induction false} HeadersRecover(kind: Kind, headers: HeadersConfig, ctx: SpanContext,
                                          listing: seq<Header>, entries: seq<Header>)
    requires NamesApart(kind, headers) && ctx.traceID.IsValid()
    requires AllWritten(kind, headers, ctx, listing)
    requires Shows(kind, entries, listing)
    ensures Recovered(kind, headers, ctx, listing, ReadHeaders(kind, headers, entries))
    decreases |listing|
  {
    if listing != [] {
      var n := |listing| - 1;
      ShowsFront(kind, entries, listing);
      HeadersRecover(kind, headers, ctx, listing[..n], entries[..n]);
      HeaderRecovers(kind, headers, ctx, listing[..n], entries[..n], listing[n], entries[n]);
    }
  }

  /** Baggage that HTTP headers can carry. */
  predicate BaggageSurvives(kind: Kind, baggage: map<string, string>) {
    kind.HttpHeaders? ==> forall k <- baggage :: Lower(k) == k && Escapable(kind.chars, baggage[k])
  }

  /** What the loop over the headers comes to. */
  lemma ListingReads(kind: Kind, headers: HeadersConfig, ctx: SpanContext, listing: seq<Header>, entries: seq<Header>)
    requires NamesApart(kind, headers) && AllWritten(kind, headers, ctx, listing) && Shows(kind, entries, listing)
    requires ShowsKey(listing, headers.traceContextHeaderName)
    requires forall k <- ctx.baggage :: ShowsKey(listing, headers.traceBaggageHeaderPrefix + k)
    ensures DebugID(kind, headers, entries) == ""
    ensures var p := ReadHeaders(kind, headers, entries);
            if ctx.traceID.IsValid() then
              p.Going? && p.ctx == ctx.Bare() && (p.baggage == ctx.baggage <==> BaggageSurvives(kind, ctx.baggage))
            else p.Corrupted?
  {
    NoDebugShown(kind, headers, ctx, listing, entries);
    if ctx.traceID.IsValid() {
      HeadersRecover(kind, headers, ctx, listing, entries);
      RecoveredInFull(kind, headers, ctx, listing, ReadHeaders(kind, headers, entries));
    } else {
      InvalidIsCorrupted(kind, headers, ctx, listing, entries);
    }
  }

  /** Extraction after injection, for every order of the baggage and of the headers, and any
      change of case on HTTP: the same identity and baggage come back exactly when the trace
      ID is valid and, on HTTP, the baggage keys are lower-case and the values escapable, or
      when there was nothing to carry. */
  lemma JaegerRoundTrip(kind: Kind, headers: HeadersConfig, ctx: SpanContext,
                        items: seq<Header>, listing: seq<Header>, entries: seq<Header>)
    requires NamesApart(kind, headers)
    requires Lists(items, ctx.baggage)
    requires Lists(listing, Collect(Inject(kind, headers, ctx, items))) && Shows(kind, entries, listing)
    ensures var carried := ctx.(debugID := "", traceState := "");
            Extract(kind, headers, entries).ctx == carried <==>
              carried == EMPTY_CONTEXT || (ctx.traceID.IsValid() && BaggageSurvives(kind, ctx.baggage))
    ensures Extract(kind, headers, entries).decodingErrors == if ctx.traceID.IsValid() then 0 else 1
  {
    InjectionCarries(kind, headers, ctx, items, ctx.baggage);
    ListingIsWritten(kind, headers, ctx, Collect(Inject(kind, headers, ctx, items)), listing);
    ListingReads(kind, headers, ctx, listing, entries);
  }

  lemma RecoveredInFull(kind: Kind, headers: HeadersConfig, ctx: SpanContext, listing: seq<Header>, p: Progress)
    requires Recovered(kind, headers, ctx, listing, p)
    requires ShowsKey(listing, headers.traceContextHeaderName)
    requires forall k <- ctx.baggage :: ShowsKey(listing, headers.traceBaggageHeaderPrefix + k)
    ensures p.Going? && p.ctx == ctx.Bare()
    ensures p.baggage == ctx.baggage <==> BaggageSurvives(kind, ctx.baggage)
  {
    BaggageComesBack(kind, ctx.baggage, p.baggage);
  }

  lemma BaggageComesBack(kind: Kind, sent: map<string, string>, got: map<string, string>)
    requires forall key <- got :: KeyNormal(kind, key)
    requires AllNormal(kind, sent) ==>
               got.Keys == sent.Keys && forall k <- got :: got[k] == Recoded(kind, sent[k])
    ensures got == sent <==> BaggageSurvives(kind, sent)
  {
    if kind.HttpHeaders? {
      forall k | k in sent ensures Recoded(kind, sent[k]) == sent[k] <==> Escapable(kind.chars, sent[k]) {
        EscapeRoundTrip(kind.chars, sent[k]);
      }
    }
  }

  lemma NoDebugShown(kind: Kind, headers: HeadersConfig, ctx: SpanContext, listing: seq<Header>, entries: seq<Header>)
    requires NamesApart(kind, headers)
    requires AllWritten(kind, headers, ctx, listing)
    requires Shows(kind, entries, listing)
    ensures DebugID(kind, headers, entries) == ""
  {
    var prefix := headers.traceBaggageHeaderPrefix;
    forall i | 0 <= i < |entries|
      ensures NormalizeKey(kind, entries[i].0) != headers.jaegerDebugHeader
    {
      var name := listing[i].0;
      assert Written(kind, headers, ctx, listing[i]);
      if name != headers.traceContextHeaderName {
        assert name == prefix + name[|prefix|..];
        NormalizeConcat(kind, prefix, name[|prefix|..]);
        assert StartsWith(NormalizeKey(kind, entries[i].0), prefix);
      }
    }
    NoDebugHeader(kind, headers, entries);
  }

  lemma InvalidIsCorrupted(kind: Kind, headers: HeadersConfig, ctx: SpanContext,
                           listing: seq<Header>, entries: seq<Header>)
    requires NamesApart(kind, headers) && !ctx.traceID.IsValid()
    requires AllWritten(kind, headers, ctx, listing)
    requires ShowsKey(listing, headers.traceContextHeaderName) && Shows(kind, entries, listing)
    ensures ReadHeaders(kind, headers, entries).Corrupted?
  {
    var i :| 0 <= i < |listing| && listing[i].0 == headers.traceContextHeaderName;
    assert Written(kind, headers, ctx, listing[i]);
    assert entries[..i + 1][..i] == entries[..i];
    PrintedContextIsPlain(kind, ctx);
    InvalidTextIsRefused(ctx);
    StaysCorrupted(kind, headers, entries, i + 1);
  }

  // ---- Headers from elsewhere ----

  /** A debug header is none of the format's own. */
  ghost predicate DebugApart(headers: HeadersConfig) {
    && headers.jaegerDebugHeader != headers.traceContextHeaderName
    && headers.jaegerDebugHeader != headers.jaegerBaggageHeader
    && !StartsWith(headers.jaegerDebugHeader, headers.traceBaggageHeaderPrefix)
  }

  lemma DebugHeaderIsSkipped(kind: Kind, headers: HeadersConfig, p: Progress, entry: Header)
    requires DebugApart(headers) && IsDebugHeader(kind, headers, entry) && p.Going?
    ensures ReadHeader(kind, headers, p, entry) == p
  {
  }

  /** Two lists of headers that read alike. */
  ghost predicate SameReading(kind: Kind, headers: HeadersConfig, a: seq<Header>, b: seq<Header>) {
    forall k: Kind | k == kind :: ReadHeaders(k, headers, a) == ReadHeaders(k, headers, b)
  }

  lemma NextUnlessDebug(kind: Kind, headers: HeadersConfig, before: seq<Header>, kept: seq<Header>, entry: Header)
    requires DebugApart(headers)
    requires SameReading(kind, headers, before, kept)
    ensures SameReading(kind, headers, before + [entry],
                        kept + if IsDebugHeader(kind, headers, entry) then [] else [entry])
  {
    var p := ReadHeaders(kind, headers, before);
    NextHeader(kind, headers, before, entry);
    if !IsDebugHeader(kind, headers, entry) {
      NextHeader(kind, headers, kept, entry);
    } else {
      assert kept + [] == kept;
      if p.Going? {
        DebugHeaderIsSkipped(kind, headers, p, entry);
      }
    }
  }

  lemma {:induction false} DebugHeadersAreSkipped(kind: Kind, headers: HeadersConfig, entries: seq<Header>)
    requires DebugApart(headers)
    ensures SameReading(kind, headers, entries, WithoutDebug(kind, headers, entries))
  {
    if entries != [] {
      var n := |entries| - 1;
      DebugHeadersAreSkipped(kind, headers, entries[..n]);
      NextUnlessDebug(kind, headers, entries[..n], WithoutDebug(kind, headers, entries[..n]), entries[n]);
      assert entries == entries[..n] + [entries[n]];
    }
  }

  /** A debug header with a value forces sampling of what the other headers give, under its value; of
      several the last one counts. */
  lemma DebugHeaderForces(kind: Kind, headers: HeadersConfig, entries: seq<Header>, i: nat)
    requires DebugApart(headers)
    requires i < |entries| && IsDebugHeader(kind, headers, entries[i]) && entries[i].1 != ""
    requires forall j | i < j < |entries| :: !IsDebugHeader(kind, headers, entries[j])
    ensures var own := OwnExtract(kind, headers, WithoutDebug(kind, headers, entries));
            var got := Extract(kind, headers, entries);
            Forced(got.ctx, own.ctx, entries[i].1) && got.decodingErrors == own.decodingErrors
  {
    DebugHeadersAreSkipped(kind, headers, entries);
    DebugIDIsLastShown(kind, headers, entries, i);
    DebugIDForces(OwnExtract(kind, headers, entries), entries[i].1);
  }

  /** With the default names and nothing else, the result holds just the debug ID. */
  lemma DebugHeaderAlone(kind: Kind, value: string)
    requires value != ""
    ensures var headers := MakeHeadersConfig("", "", "", "");
            Extract(kind, headers, [("jaeger-debug-id", value)])
            == Extraction(EMPTY_CONTEXT.(flags := 3, debugID := value), 0)
  {
    var headers := MakeHeadersConfig("", "", "", "");
    DefaultDebugIsApart(kind);
    OneDebugHeader(kind, headers, "jaeger-debug-id", value);
  }

  lemma DefaultDebugIsApart(kind: Kind)
    ensures DebugApart(MakeHeadersConfig("", "", "", ""))
    ensures NormalizeKey(kind, "jaeger-debug-id") == "jaeger-debug-id"
  {
    assert Lower("jaeger-debug-id") == "jaeger-debug-id";
    assert "jaeger-debug-id"[0] != "uberctx-"[0] && |"jaeger-debug-id"| != |"jaeger-baggage"|;
    assert "jaeger-debug-id"[0] != "uber-trace-id"[0];
  }

  lemma OneDebugHeader(kind: Kind, headers: HeadersConfig, name: string, value: string)
    requires DebugApart(headers) && IsDebugHeader(kind, headers, (name, value)) && value != ""
    ensures Extract(kind, headers, [(name, value)]) == Extraction(EMPTY_CONTEXT.(flags := 3, debugID := value), 0)
  {
    var entries := [(name, value)];
    assert entries[..0] == [] && WithoutDebug(kind, headers, entries) == [];
    DebugHeaderForces(kind, headers, entries, 0);
  }

  // ---- The baggage header ----

  function JoinPieces(pairs: seq<(string, string)>): string {
    if pairs == [] then ""
    else
      var piece := pairs[0].0 + "=" + pairs[0].1;
      if |pairs| == 1 then piece else piece + "," + JoinPieces(pairs[1..])
  }

  /** The map filled from pairs, later ones winning. */
  function MapOf(pairs: seq<(string, string)>): map<string, string> {
    if pairs == [] then map[] else map[pairs[0].0 := pairs[0].1] + MapOf(pairs[1..])
  }

  ghost predicate Joinable(pairs: seq<(string, string)>) {
    forall i | 0 <= i < |pairs| :: '=' !in pairs[i].0 && ',' !in pairs[i].0 && ',' !in pairs[i].1
  }

  lemma PieceReads(key: string, value: string)
    requires '=' !in key
    ensures CommaPiece(key + "=" + value) == map[key := value]
  {
    PartsOf(key, value);
    assert key + "=" + value == key + ("=" + value);
    IndexOfFirst(key, "=" + value, '=');
  }

  lemma FirstPieceReads(piece: string, rest: string)
    requires ',' !in piece
    ensures CommaSeparatedMap(piece + "," + rest) == CommaPiece(piece) + CommaSeparatedMap(rest)
  {
    var all := piece + "," + rest;
    assert all == piece + ("," + rest);
    IndexOfFirst(piece, "," + rest, ',');
    assert all[..|piece|] == piece && all[|piece| + 1..] == rest;
  }

  lemma LastPieceReads(piece: string)
    requires ',' !in piece
    ensures CommaSeparatedMap(piece) == CommaPiece(piece)
  {
    IndexOfFirst(piece, "", ',');
    assert piece + "" == piece;
  }

  /** "key=value" pieces joined by commas read back, if no key holds '=' and neither side a comma. */
  lemma {:induction false} JoinedPiecesRead(pairs: seq<(string, string)>)
    requires Joinable(pairs)
    ensures CommaSeparatedMap(JoinPieces(pairs)) == MapOf(pairs)
  {
    if pairs == [] {
      LastPieceReads("");
      assert IndexOf("", '=') == 0;
    } else {
      var piece := pairs[0].0 + "=" + pairs[0].1;
      assert ',' !in piece;
      PieceReads(pairs[0].0, pairs[0].1);
      if |pairs| == 1 {
        LastPieceReads(piece);
        assert MapOf(pairs[1..]) == map[];
      } else {
        JoinedPiecesRead(pairs[1..]);
        FirstPieceReads(piece, JoinPieces(pairs[1..]));
      }
    }
  }

  /** The baggage header adds its pairs to the baggage, over those of earlier headers. */
  lemma BaggageHeaderAdds(kind: Kind, headers: HeadersConfig, before: seq<Header>, name: string,
                          pairs: seq<(string, string)>)
    requires headers.jaegerBaggageHeader != headers.traceContextHeaderName
    requires NormalizeKey(kind, name) == headers.jaegerBaggageHeader
    requires Joinable(pairs) && '%' !in JoinPieces(pairs)
    requires ReadHeaders(kind, headers, before).Going?
    ensures var p := ReadHeaders(kind, headers, before);
            ReadHeaders(kind, headers, before + [(name, JoinPieces(pairs))]) == p.(baggage := p.baggage + MapOf(pairs))
  {
    NextHeader(kind, headers, before, (name, JoinPieces(pairs)));
    UnescapeIsIdentityWithoutPercent(JoinPieces(pairs));
    JoinedPiecesRead(pairs);
  }
}
