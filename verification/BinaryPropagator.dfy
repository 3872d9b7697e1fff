/**
 The binary format: fixed-width numbers, then length-prefixed baggage keys and values.
 */
module BinaryPropagation {
  import opened HexParsing
  import opened SpanContexts
  import opened Propagation
  import opened BinaryNumbers

  // ---- Contexts ----

  function Length32(s: string): nat {
    |s| % 0x1_0000_0000
  }

  /** A string behind its length, in front of what follows. */
  function WriteField(host: Host, field: string, tail: string): (s: string)
    ensures |s| == 4 + |field| + |tail|
  {
    NumberBytes(host, Length32(field), 4) + (field + tail)
  }

  function WriteItem(host: Host, item: Header, tail: string): (s: string)
    ensures |s| == 8 + |item.0| + |item.1| + |tail|
  {
    WriteField(host, item.0, WriteField(host, item.1, tail))
  }

  /** The bytes that items take. */
  function Size(items: seq<Header>): nat {
    if items == [] then 0 else 8 + |items[0].0| + |items[0].1| + Size(items[1..])
  }

  function WriteItems(host: Host, items: seq<Header>): (s: string)
    ensures |s| == Size(items)
  {
    if items == [] then "" else WriteItem(host, items[0], WriteItems(host, items[1..]))
  }

  /** The IDs and the flags in front of what follows them. */
  function WriteIDs(host: Host, ctx: SpanContext, tail: string): (s: string)
    ensures |s| == 33 + |tail|
  {
    NumberBytes(host, ctx.traceID.high, 8) + (NumberBytes(host, ctx.traceID.low, 8)
    + (NumberBytes(host, ctx.spanID, 8) + (NumberBytes(host, ctx.parentID, 8) + ([ctx.flags as char] + tail))))
  }

  /** The encoding of a context whose baggage is met in the given order. */
  function Inject(host: Host, ctx: SpanContext, items: seq<Header>): (s: string)
    ensures |s| == 37 + Size(items)
  {
    WriteIDs(host, ctx, WriteBaggage(host, items))
  }

  function WriteBaggage(host: Host, items: seq<Header>): (s: string)
    ensures |s| == 4 + Size(items)
  {
    NumberBytes(host, |items| % 0x1_0000_0000, 4) + WriteItems(host, items)
  }

  datatype Items = Items(baggage: map<string, string>) | Truncated

  /** `count` items: a key and a value each. */
  function ReadItems(host: Host, s: Stream, count: nat, baggage: map<string, string>): Items
    decreases count, 1
  {
    if count == 0 then Items(baggage)
    else
      var key := ReadField(host, s);
      if key.1.failed then Truncated else ReadValue(host, key.1, count, baggage, key.0)
  }

  function ReadValue(host: Host, s: Stream, count: nat, baggage: map<string, string>, key: string): Items
    requires count > 0
    decreases count, 0
  {
    var value := ReadField(host, s);
    if value.1.failed then Truncated else ReadItems(host, value.1, count - 1, baggage[key := value.0])
  }

  /** read: exactly `n` bytes, or failure. */
  function ReadBlock(s: Stream, n: nat): (string, Stream) {
    if s.failed || |s.rest| < n then ("", Stream("", true))
    else (s.rest[..n], Stream(s.rest[n..], false))
  }

  /** A string behind its length. */
  function ReadField(host: Host, s: Stream): (string, Stream) {
    var length := ReadBinary(host, s, 4);
    ReadBlock(length.1, length.0)
  }

  /** A single character, '\0' if there is none. */
  function ReadFlags(s: Stream): (u8, Stream) {
    if s.failed || s.rest == "" then (0, s.(failed := true)) else (ByteValue(s.rest[0]), Stream(s.rest[1..], false))
  }

  /** One 64-bit number. */
  function ReadID(host: Host, s: Stream): (u64, Stream) {
    Pow256Values();
    ReadFits(host, s, 8);
    ReadBinary(host, s, 8)
  }

  /** Two numbers in a row. */
  function ReadIDPair(host: Host, s: Stream): ((u64, u64), Stream) {
    var first := ReadID(host, s);
    var second := ReadID(host, first.1);
    ((first.0, second.0), second.1)
  }

  /** The four IDs and the flags. */
  function ReadIDs(host: Host, s: Stream): (SpanContext, Stream) {
    var trace := ReadIDPair(host, s);
    var span := ReadIDPair(host, trace.1);
    var flags := ReadFlags(span.1);
    (SpanContext(TraceID(trace.0.0, trace.0.1), span.0.0, span.0.1, flags.0, map[], "", ""), flags.1)
  }

  function ReadBaggage(host: Host, s: Stream): Items {
    var count := ReadBinary(host, s, 4);
    ReadItems(host, count.1, count.0, map[])
  }

  function Extract(host: Host, s: Stream): Extraction {
    var (ctx, s1) := ReadIDs(host, s);
    match ReadBaggage(host, s1)
    case Truncated => Extraction(EMPTY_CONTEXT, 1)
    case Items(baggage) => Extraction(ctx.(baggage := baggage), 0)
  }

  // ---- The propagator's loops ----

  lemma Associate(a: string, b: string, c: string)
    ensures (a + b) + c == a + (b + c)
  {
  }

  method InjectItem(host: Host, item: Header, out: string, ghost tail: string) returns (more: string)
    ensures more + tail == out + WriteItem(host, item, tail)
  {
    var (key, value) := item;
    var keyLength := WriteNumber(host, Length32(key), 4);
    var valueLength := WriteNumber(host, Length32(value), 4);
    more := out + keyLength;
    Associate(out, keyLength, key + (valueLength + (value + tail)));
    Associate(more, key, valueLength + (value + tail));
    more := more + key;
    Associate(more, valueLength, value + tail);
    more := more + valueLength;
    Associate(more, value, tail);
    more := more + value;
  }

  method InjectIDs(host: Host, ctx: SpanContext, ghost tail: string) returns (out: string)
    ensures out + tail == WriteIDs(host, ctx, tail)
  {
    var high := WriteNumber(host, ctx.traceID.high, 8);
    var low := WriteNumber(host, ctx.traceID.low, 8);
    var spanID := WriteNumber(host, ctx.spanID, 8);
    var parentID := WriteNumber(host, ctx.parentID, 8);
    var flags := [ctx.flags as char];
    out := high + low;
    Associate(high, low, spanID + (parentID + (flags + tail)));
    Associate(out, spanID, parentID + (flags + tail));
    out := out + spanID;
    Associate(out, parentID, flags + tail);
    out := out + parentID;
    Associate(out, flags, tail);
    out := out + flags;
  }

  method InjectContext(host: Host, ctx: SpanContext, items: seq<Header>) returns (out: string)
    ensures out == Inject(host, ctx, items)
  {
    ghost var body := WriteItems(host, items);
    var count := WriteNumber(host, |items| % 0x1_0000_0000, 4);
    out := InjectIDs(host, ctx, count + body);
    Associate(out, count, body);
    out := out + count;
    assert items[0..] == items;
    for i := 0 to |items|
      invariant out + WriteItems(host, items[i..]) == Inject(host, ctx, items)
    {
      assert items[i..][1..] == items[i + 1..];
      out := InjectItem(host, items[i], out, WriteItems(host, items[i + 1..]));
    }
    assert out + "" == out;
  }

  method ReadChars(input: IStream, n: nat) returns (ok: bool, block: string)
    modifies input
    ensures (block, input.Now()) == ReadBlock(old(input.Now()), n) && ok == !input.failed
  {
    if input.failed || |input.rest| < n {
      input.failed, input.rest := true, "";
      return false, "";
    }
    block := input.rest[..n];
    input.rest := input.rest[n..];
    return true, block;
  }

  method ExtractID(host: Host, input: IStream) returns (id: u64)
    modifies input
    ensures (id, input.Now()) == ReadID(host, old(input.Now()))
  {
    Pow256Values();
    ReadFits(host, input.Now(), 8);
    id := ReadNumber(host, input, 8);
  }

  method ExtractIDs(host: Host, input: IStream) returns (ctx: SpanContext)
    modifies input
    ensures (ctx, input.Now()) == ReadIDs(host, old(input.Now()))
  {
    var high := ExtractID(host, input);
    var low := ExtractID(host, input);
    var spanID := ExtractID(host, input);
    var parentID := ExtractID(host, input);
    var ok, ch := input.Get();
    var flags := if ok then ByteValue(ch) else 0;
    return SpanContext(TraceID(high, low), spanID, parentID, flags, map[], "", "");
  }

  method ExtractField(host: Host, input: IStream) returns (ok: bool, field: string)
    modifies input
    ensures (field, input.Now()) == ReadField(host, old(input.Now())) && ok == !input.failed
  {
    var length := ReadNumber(host, input, 4);
    ok, field := ReadChars(input, length);
  }

  /** One round of the loop, with `left` items to come. */
  method ExtractOneOf(host: Host, input: IStream, ghost left: nat, baggage: map<string, string>)
    returns (ok: bool, more: map<string, string>)
    requires left > 0
    modifies input
    ensures ReadItems(host, old(input.Now()), left, baggage) ==
            if ok then ReadItems(host, input.Now(), left - 1, more) else Truncated
  {
    var key, value;
    ok, key := ExtractField(host, input);
    if !ok {
      return false, baggage;
    }
    ok, value := ExtractField(host, input);
    return ok, baggage[key := value];
  }

  method ExtractItems(host: Host, input: IStream, count: nat, initial: map<string, string>) returns (result: Items)
    modifies input
    ensures result == ReadItems(host, old(input.Now()), count, initial)
  {
    ghost var expected := ReadItems(host, input.Now(), count, initial);
    var baggage := initial;
    for i := 0 to count
      invariant ReadItems(host, input.Now(), count - i, baggage) == expected
    {
      var ok;
      ok, baggage := ExtractOneOf(host, input, count - i, baggage);
      if !ok {
        return Truncated;
      }
    }
    return Items(baggage);
  }

  method ExtractBaggage(host: Host, input: IStream) returns (result: Items)
    modifies input
    ensures result == ReadBaggage(host, old(input.Now()))
  {
    var count := ReadNumber(host, input, 4);
    result := ExtractItems(host, input, count, map[]);
  }

  method ExtractContext(host: Host, input: IStream) returns (result: Extraction)
    modifies input
    ensures result == Extract(host, old(input.Now()))
  {
    var ctx := ExtractIDs(host, input);
    var items := ExtractBaggage(host, input);
    match items {
      case Truncated => return Extraction(EMPTY_CONTEXT, 1);
      case Items(baggage) => return Extraction(ctx.(baggage := baggage), 0);
    }
  }

  // ---- Round trip ----

  /** Lengths that fit the 32-bit length fields. */
  ghost predicate Fits32(items: seq<Header>) {
    && |items| < 0x1_0000_0000
    && forall i | 0 <= i < |items| :: |items[i].0| < 0x1_0000_0000 && |items[i].1| < 0x1_0000_0000
  }

  lemma IDReadsBack(host: Host, v: u64, tail: string)
    ensures ReadID(host, Stream(NumberBytes(host, v, 8) + tail, false)) == (v, Stream(tail, false))
  {
    EveryHostIsFaithful(host, v, 0, tail);
  }

  lemma IDPairReadsBack(host: Host, first: u64, second: u64, tail: string)
    ensures ReadIDPair(host, Stream(NumberBytes(host, first, 8) + (NumberBytes(host, second, 8) + tail), false))
         == ((first, second), Stream(tail, false))
  {
    IDReadsBack(host, first, NumberBytes(host, second, 8) + tail);
    IDReadsBack(host, second, tail);
  }

  lemma LengthReadsBack(host: Host, v: u32, tail: string)
    ensures ReadBinary(host, Stream(NumberBytes(host, v, 4) + tail, false), 4) == (v, Stream(tail, false))
  {
    EveryHostIsFaithful(host, 0, v, tail);
  }

  lemma IDsReadBack(host: Host, ctx: SpanContext, tail: string)
    ensures ReadIDs(host, Stream(WriteIDs(host, ctx, tail), false)) == (ctx.Bare(), Stream(tail, false))
  {
    var flags := [ctx.flags as char] + tail;
    var span := NumberBytes(host, ctx.spanID, 8) + (NumberBytes(host, ctx.parentID, 8) + flags);
    IDPairReadsBack(host, ctx.traceID.high, ctx.traceID.low, span);
    IDPairReadsBack(host, ctx.spanID, ctx.parentID, flags);
    assert flags[1..] == tail;
  }

  lemma BlockReadsBack(block: string, tail: string)
    ensures ReadBlock(Stream(block + tail, false), |block|) == (block, Stream(tail, false))
  {
    assert (block + tail)[..|block|] == block && (block + tail)[|block|..] == tail;
  }

  lemma FieldReadsBack(host: Host, field: string, tail: string)
    requires |field| < 0x1_0000_0000
    ensures ReadField(host, Stream(WriteField(host, field, tail), false)) == (field, Stream(tail, false))
  {
    assert Length32(field) == |field|;
    LengthReadsBack(host, |field|, field + tail);
    BlockReadsBack(field, tail);
  }

  /** The map filled from a list of items. */
  function Filled(baggage: map<string, string>, items: seq<Header>): map<string, string>
    decreases |items|
  {
    if items == [] then baggage else Filled(baggage[items[0].0 := items[0].1], items[1..])
  }

  lemma {:induction false} FilledPush(baggage: map<string, string>, items: seq<Header>, item: Header)
    ensures Filled(baggage, items + [item]) == Filled(baggage, items)[item.0 := item.1]
    decreases |items|
  {
    if items == [] {
      assert (items + [item])[1..] == [];
    } else {
      assert (items + [item])[1..] == items[1..] + [item];
      FilledPush(baggage[items[0].0 := items[0].1], items[1..], item);
    }
  }

  lemma {:induction false} ListingFills(items: seq<Header>, baggage: map<string, string>)
    requires Lists(items, baggage)
    ensures Filled(map[], items) == baggage
    decreases |items|
  {
    if items == [] {
      assert forall k <- baggage :: false;
    } else {
      var n := |items| - 1;
      ListsFront(items, baggage);
      var front, last := items[..n], items[n];
      assert items == front + [last];
      ListingFills(front, baggage - {last.0});
      FilledPush(map[], front, last);
    }
  }

  /** Reading one item of a list. */
  lemma {:induction false} NextItem(host: Host, items: seq<Header>, baggage: map<string, string>, tail: string)
    requires items != [] && Fits32(items)
    ensures ReadItems(host, Stream(WriteItem(host, items[0], tail), false), |items|, baggage)
         == ReadItems(host, Stream(tail, false), |items[1..]|, baggage[items[0].0 := items[0].1])
  {
    FieldReadsBack(host, items[0].0, WriteField(host, items[0].1, tail));
    FieldReadsBack(host, items[0].1, tail);
  }

  lemma {:induction false} ItemsReadBack(host: Host, items: seq<Header>, baggage: map<string, string>)
    requires Fits32(items)
    ensures ReadItems(host, Stream(WriteItems(host, items), false), |items|, baggage) == Items(Filled(baggage, items))
    decreases |items|
  {
    if items != [] {
      NextItem(host, items, baggage, WriteItems(host, items[1..]));
      ItemsReadBack(host, items[1..], baggage[items[0].0 := items[0].1]);
    }
  }

  /** Extraction after injection on the same host, for every order of the baggage. */
  lemma {:induction false} BinaryRoundTrip(host: Host, ctx: SpanContext, items: seq<Header>)
    requires Lists(items, ctx.baggage) && Fits32(items)
    ensures Extract(host, Stream(Inject(host, ctx, items), false))
         == Extraction(ctx.(debugID := "", traceState := ""), 0)
  {
    ItemsAreExtracted(host, ctx, items);
    ListingFills(items, ctx.baggage);
  }

  lemma ItemsAreExtracted(host: Host, ctx: SpanContext, items: seq<Header>)
    requires Fits32(items)
    ensures Extract(host, Stream(Inject(host, ctx, items), false))
         == Extraction(ctx.Bare().(baggage := Filled(map[], items)), 0)
  {
    assert |items| % 0x1_0000_0000 == |items|;
    IDsReadBack(host, ctx, WriteBaggage(host, items));
    ItemsReadBack(host, items, map[]);
    CountThenItems(host, |items|, WriteItems(host, items), Items(Filled(map[], items)));
  }

  lemma CountThenItems(host: Host, count: u32, body: string, result: Items)
    requires ReadItems(host, Stream(body, false), count, map[]) == result
    ensures ReadBaggage(host, Stream(NumberBytes(host, count, 4) + body, false)) == result
  {
    LengthReadsBack(host, count, body);
  }

  // ---- Truncated input ----

  /** Where a cut through a concatenation falls. */
  lemma Cut(a: string, b: string, m: nat)
    requires m <= |a| + |b|
    ensures (a + b)[..m] == if m < |a| then a[..m] else a + b[..m - |a|]
  {
  }

  lemma CutFieldFails(host: Host, field: string, tail: string, m: nat)
    requires |field| < 0x1_0000_0000 && m < 4 + |field|
    ensures ReadField(host, Stream(WriteField(host, field, tail)[..m], false)).1.failed
  {
    assert Length32(field) == |field|;
    var length := NumberBytes(host, |field|, 4);
    Cut(length, field + tail, m);
    if m >= 4 {
      LengthReadsBack(host, |field|, (field + tail)[..m - 4]);
    }
  }

  lemma CutBehindField(host: Host, field: string, tail: string, m: nat)
    requires 4 + |field| <= m <= |WriteField(host, field, tail)|
    ensures |WriteField(host, field, tail)| == 4 + |field| + |tail|
    ensures WriteField(host, field, tail)[..m] == WriteField(host, field, tail[..m - 4 - |field|])
  {
    Cut(NumberBytes(host, Length32(field), 4), field + tail, m);
    Cut(field, tail, m - 4);
  }

  /** A field that breaks off ends the items. */
  lemma BrokenKey(host: Host, s: Stream, count: nat, baggage: map<string, string>)
    requires count > 0 && ReadField(host, s).1.failed
    ensures ReadItems(host, s, count, baggage).Truncated?
  {
  }

  lemma BrokenValue(host: Host, key: string, value: string, count: nat, baggage: map<string, string>)
    requires |key| < 0x1_0000_0000 && count > 0 && ReadField(host, Stream(value, false)).1.failed
    ensures ReadItems(host, Stream(WriteField(host, key, value), false), count, baggage).Truncated?
  {
    FieldReadsBack(host, key, value);
  }

  lemma CutItemFails(host: Host, item: Header, tail: string, m: nat, count: nat, baggage: map<string, string>)
    requires |item.0| < 0x1_0000_0000 && |item.1| < 0x1_0000_0000 && count > 0
    requires m < 8 + |item.0| + |item.1|
    ensures ReadItems(host, Stream(WriteItem(host, item, tail)[..m], false), count, baggage).Truncated?
  {
    var value, behind := WriteField(host, item.1, tail), m - 4 - |item.0|;
    if behind < 0 {
      CutFieldFails(host, item.0, value, m);
      BrokenKey(host, Stream(WriteItem(host, item, tail)[..m], false), count, baggage);
    } else {
      CutBehindField(host, item.0, value, m);
      CutFieldFails(host, item.1, tail, behind);
      BrokenValue(host, item.0, value[..behind], count, baggage);
    }
  }

  lemma CutBehindItem(host: Host, item: Header, tail: string, m: nat)
    requires 8 + |item.0| + |item.1| <= m <= |WriteItem(host, item, tail)|
    ensures |WriteItem(host, item, tail)| == 8 + |item.0| + |item.1| + |tail|
    ensures WriteItem(host, item, tail)[..m] == WriteItem(host, item, tail[..m - 8 - |item.0| - |item.1|])
  {
    CutBehindField(host, item.0, WriteField(host, item.1, tail), m);
    CutBehindField(host, item.1, tail, m - 4 - |item.0|);
  }

  /** Baggage cut anywhere before its end is noticed. */
  lemma {:induction false} CutItemsFail(host: Host, items: seq<Header>, m: nat, baggage: map<string, string>)
    requires Fits32(items) && m < Size(items)
    ensures ReadItems(host, Stream(WriteItems(host, items)[..m], false), |items|, baggage).Truncated?
    decreases |items|
  {
    if items != [] {
      var rest, length := WriteItems(host, items[1..]), 8 + |items[0].0| + |items[0].1|;
      if m < length {
        CutItemFails(host, items[0], rest, m, |items|, baggage);
      } else {
        CutBehindItem(host, items[0], rest, m);
        NextItem(host, items, baggage, rest[..m - length]);
        CutItemsFail(host, items[1..], m - length, baggage[items[0].0 := items[0].1]);
      }
    }
  }

  lemma CutBehindIDs(host: Host, ctx: SpanContext, tail: string, m: nat)
    requires 33 <= m <= 33 + |tail|
    ensures WriteIDs(host, ctx, tail)[..m] == WriteIDs(host, ctx, tail[..m - 33])
  {
    var tail4 := [ctx.flags as char] + tail;
    var tail3 := NumberBytes(host, ctx.parentID, 8) + tail4;
    var tail2 := NumberBytes(host, ctx.spanID, 8) + tail3;
    var tail1 := NumberBytes(host, ctx.traceID.low, 8) + tail2;
    Cut(NumberBytes(host, ctx.traceID.high, 8), tail1, m);
    Cut(NumberBytes(host, ctx.traceID.low, 8), tail2, m - 8);
    Cut(NumberBytes(host, ctx.spanID, 8), tail3, m - 16);
    Cut(NumberBytes(host, ctx.parentID, 8), tail4, m - 24);
    Cut([ctx.flags as char], tail, m - 32);
  }

  /** A prefix cut behind the 37-byte header decodes to the empty context, with one error. */
  lemma {:induction false} TruncatedBaggageIsRefused(host: Host, ctx: SpanContext, items: seq<Header>, m: nat)
    requires Fits32(items) && 37 <= m < 37 + Size(items)
    ensures Extract(host, Stream(Inject(host, ctx, items)[..m], false)) == Extraction(EMPTY_CONTEXT, 1)
  {
    CutBaggage(host, ctx, items, m);
  }

  lemma CutBaggage(host: Host, ctx: SpanContext, items: seq<Header>, m: nat)
    requires Fits32(items) && 37 <= m < 37 + Size(items)
    ensures Extract(host, Stream(Inject(host, ctx, items)[..m], false)) == Extraction(EMPTY_CONTEXT, 1)
  {
    var baggage := WriteBaggage(host, items);
    ByteBehindIDs(host, ctx, baggage);
    CutBehindIDs(host, ctx, baggage, m);
    IDsReadBack(host, ctx, baggage[..m - 33]);
    CutBaggageFails(host, items, m - 33);
  }

  lemma CutBaggageFails(host: Host, items: seq<Header>, m: nat)
    requires Fits32(items) && 4 <= m < 4 + Size(items)
    ensures ReadBaggage(host, Stream(WriteBaggage(host, items)[..m], false)).Truncated?
  {
    assert |items| % 0x1_0000_0000 == |items|;
    var count, body := NumberBytes(host, |items|, 4), WriteItems(host, items);
    Cut(count, body, m);
    CutItemsFail(host, items, m - 4, map[]);
    CountThenItems(host, |items|, body[..m - 4], Truncated);
  }

  lemma CutIDsFail(host: Host, s: Stream)
    requires !s.failed && |s.rest| < 33
    ensures ReadIDs(host, s).1 == Stream("", true)
  {
  }

  /** With fewer than four bytes of the item count, an error is counted only if they are not all
      zero. */
  lemma CutCount(host: Host, s: Stream)
    requires |s.rest| < 4
    ensures ReadBaggage(host, s).Truncated? <==> !s.failed && !ZeroBytes(s.rest)
  {
    assert s.rest[..|s.rest|] == s.rest;
    ZeroNumber(host, s.rest, 4);
    ZeroNumber(host, "", 4);
  }

  /** A cut inside the header goes unnoticed, unless a non-zero byte of the item count is left:
      the IDs are whatever was read. */
  lemma {:induction false} TruncatedHeader(host: Host, ctx: SpanContext, items: seq<Header>, m: nat)
    requires m < 37
    ensures var whole := Inject(host, ctx, items);
            && |whole| >= 37
            && Extract(host, Stream(whole[..m], false)).decodingErrors ==
                 if m <= 33 || ZeroBytes(whole[33..m]) then 0 else 1
  {
    CutHeader(host, ctx, items, m);
  }

  lemma CutHeader(host: Host, ctx: SpanContext, items: seq<Header>, m: nat)
    requires m < 37
    ensures var whole := Inject(host, ctx, items);
            && |whole| >= 37
            && Extract(host, Stream(whole[..m], false)).decodingErrors ==
                 if m <= 33 || ZeroBytes(whole[33..m]) then 0 else 1
  {
    var body := WriteBaggage(host, items);
    var whole := Inject(host, ctx, items);
    ByteBehindIDs(host, ctx, body);
    if m < 33 {
      CutIDsFail(host, Stream(whole[..m], false));
      CutCount(host, ReadIDs(host, Stream(whole[..m], false)).1);
    } else {
      var left := body[..m - 33];
      assert left == whole[33..m];
      CutBehindIDs(host, ctx, body, m);
      IDsReadBack(host, ctx, left);
      CutCount(host, Stream(left, false));
    }
  }

  lemma ByteBehindIDs(host: Host, ctx: SpanContext, tail: string)
    ensures |WriteIDs(host, ctx, tail)| == 33 + |tail| && WriteIDs(host, ctx, tail)[33..] == tail
  {
  }
}
