/**
 The text forms of a context from outside: what any digits in their places stand for, what the
 printed fields are, and what becomes of text that is cut short.
 */
module TextLayouts {
  import opened HexParsing
  import opened SpanContexts
  import opened W3CPropagation

  function Number(id: TraceID): nat {
    id.high * U64_RANGE + id.low
  }

  // ---- The Jaeger form ----

  lemma HalvesValue(high: string, low: string)
    requires AllHex(high) && AllHex(low) && |low| == 16
    ensures AllHex(high + low) && HexValue(high + low) == HexValue(high) * U64_RANGE + HexValue(low)
  {
    HexValueConcat(high, low);
    Pow16Values();
  }

  /** Up to 32 digits are one 128-bit number. */
  lemma TraceIDValue(digits: string)
    requires AllHex(digits) && |digits| <= 32
    ensures Number(TraceIDOf(digits)) == HexValue(digits)
  {
    if |digits| < 16 {
      DecodeOfDigits(digits);
    } else {
      var high, low := digits[..|digits| - 16], digits[|digits| - 16..];
      DecodeOfDigits(high);
      DecodeOfDigits(low);
      HalvesValue(high, low);
      assert digits == high + low;
    }
  }

  ghost predicate Digits(s: string, most: nat) {
    AllHex(s) && 1 <= |s| <= most
  }

  lemma LastFieldReads(digits: string, most: nat, delim: char)
    requires Digits(digits, most) && !IsHex(delim)
    ensures var (read, after) := Segment(Stream(digits, false), most, delim, "");
            read == digits && after.rest == ""
  {
    SegmentReadsDigits(digits, "", most, delim, "");
    assert digits + "" == digits && "" + digits == digits;
  }

  /** Four fields of digits, separated by colons and not necessarily padded, are the trace ID, the span
      ID, the parent's and the flags, if the trace ID is not zero. */
  lemma AnyTextReads(id: string, span: string, parent: string, flags: string)
    requires Digits(id, 32) && Digits(span, 16) && Digits(parent, 16) && Digits(flags, 2)
    requires HexValue(id) > 0
    ensures var ctx := FromStream(Stream(id + ":" + (span + ":" + (parent + ":" + flags)), false)).0;
            && Number(ctx.traceID) == HexValue(id) && ctx.spanID == HexValue(span)
            && ctx.parentID == HexValue(parent) && ctx.flags == HexValue(flags)
            && ctx == ctx.Bare()
  {
    var tail2 := parent + ":" + flags;
    var tail1 := span + ":" + tail2;
    TraceIDValue(id);
    FieldReads(id, ':', tail1, 32);
    FieldReads(span, ':', tail2, 16);
    FieldReads(parent, ':', flags, 16);
    LastFieldReads(flags, 2, ':');
    DecodeOfDigits(span);
    DecodeOfDigits(parent);
    DecodeOfDigits(flags);
  }

  /** What is printed has these fields, the IDs with 16 digits or, for a trace ID of more than 64 bits,
      with 32. */
  lemma PrintedFields(ctx: SpanContext)
    ensures var id, span, parent, flags :=
              ctx.traceID.Print(), PadHex(ctx.spanID, 16), PadHex(ctx.parentID, 16), Hex(ctx.flags);
            && ctx.Print() == id + ":" + (span + ":" + (parent + ":" + flags))
            && AllHex(id) && HexValue(id) == Number(ctx.traceID)
            && |id| == (if ctx.traceID.high == 0 then 16 else 32)
            && HexValue(span) == ctx.spanID && |span| == 16
            && HexValue(parent) == ctx.parentID && |parent| == 16
            && HexValue(flags) == ctx.flags && Digits(flags, 2)
  {
    PadHexExact(ctx.traceID.high);
    PadHexExact(ctx.traceID.low);
    PadHexExact(ctx.spanID);
    PadHexExact(ctx.parentID);
    PrintedTraceIDReadsBack(ctx.traceID);
    TraceIDValue(ctx.traceID.Print());
    HexValueOfPadHex(ctx.spanID, 16);
    HexValueOfPadHex(ctx.parentID, 16);
    HexValueOfHex(ctx.flags);
    Pow16Values();
    HexFits(ctx.flags, 2);
  }

  // Text that ends early.

  lemma EndIsNoDelimiter(digits: string, most: nat, delim: char)
    requires AllHex(digits) && |digits| <= most && !IsHex(delim)
    ensures var (read, after) := Segment(Stream(digits, false), most, delim, "");
            read == digits && !Expect(after, delim).0
  {
    SegmentReadsDigits(digits, "", most, delim, "");
    assert digits + "" == digits && "" + digits == digits;
  }

  lemma IDAloneIsRefused(id: string)
    requires AllHex(id) && |id| <= 32
    ensures FromStream(Stream(id, false)).0 == EMPTY_CONTEXT
  {
    EndIsNoDelimiter(id, 32, ':');
  }

  lemma TwoFieldsAreRefused(id: string, span: string)
    requires AllHex(id) && |id| <= 32 && AllHex(span) && |span| <= 16
    ensures FromStream(Stream(id + ":" + span, false)).0 == EMPTY_CONTEXT
  {
    FieldReads(id, ':', span, 32);
    EndIsNoDelimiter(span, 16, ':');
  }

  lemma ThreeFieldsAreRefused(id: string, span: string, parent: string)
    requires AllHex(id) && |id| <= 32 && AllHex(span) && |span| <= 16 && AllHex(parent) && |parent| <= 16
    ensures FromStream(Stream(id + ":" + (span + ":" + parent), false)).0 == EMPTY_CONTEXT
  {
    FieldReads(id, ':', span + ":" + parent, 32);
    FieldReads(span, ':', parent, 16);
    EndIsNoDelimiter(parent, 16, ':');
  }

  lemma NoFlagsAreRefused(id: string, span: string, parent: string)
    requires AllHex(id) && |id| <= 32 && AllHex(span) && |span| <= 16 && AllHex(parent) && |parent| <= 16
    ensures FromStream(Stream(id + ":" + (span + ":" + (parent + ":")), false)).0 == EMPTY_CONTEXT
  {
    assert parent + ":" == parent + ":" + "";
    FieldReads(id, ':', span + ":" + (parent + ":"), 32);
    FieldReads(span, ':', parent + ":", 16);
    FieldReads(parent, ':', "", 16);
    EndIsNoDelimiter("", 2, ':');
  }

  lemma CutField(field: string, delim: char, tail: string, m: nat)
    requires m <= |field| + 1 + |tail|
    ensures (field + [delim] + tail)[..m] ==
            if m <= |field| then field[..m] else field + [delim] + tail[..m - |field| - 1]
  {
  }

  /** A printed context that is cut anywhere before its flags is refused. */
  lemma TruncatedTextIsRefused(ctx: SpanContext, m: nat)
    requires m + |Hex(ctx.flags)| <= |ctx.Print()|
    ensures FromStream(Stream(ctx.Print()[..m], false)).0 == EMPTY_CONTEXT
  {
    PrintedFields(ctx);
    CutFieldsAreRefused(ctx.traceID.Print(), PadHex(ctx.spanID, 16), PadHex(ctx.parentID, 16), Hex(ctx.flags), m);
  }

  /** What is left of the fields behind the trace ID. */
  lemma CutTail(span: string, parent: string, flags: string, k: nat)
    requires k <= |span| + |parent| + 2
    ensures var n := k - |span| - 1;
            (span + ":" + (parent + ":" + flags))[..k] ==
            if k <= |span| then span[..k]
            else if n <= |parent| then span + ":" + parent[..n]
            else span + ":" + (parent + ":")
  {
    CutField(span, ':', parent + ":" + flags, k);
    if k > |span| {
      CutField(parent, ':', flags, k - |span| - 1);
      assert parent + ":" + flags[..0] == parent + ":";
    }
  }

  lemma CutTailIsRefused(id: string, span: string, parent: string, flags: string, k: nat)
    requires AllHex(id) && |id| <= 32 && AllHex(span) && |span| <= 16 && AllHex(parent) && |parent| <= 16
    requires k <= |span| + |parent| + 2
    ensures FromStream(Stream(id + ":" + (span + ":" + (parent + ":" + flags))[..k], false)).0 == EMPTY_CONTEXT
  {
    var n := k - |span| - 1;
    CutTail(span, parent, flags, k);
    if k <= |span| {
      TwoFieldsAreRefused(id, span[..k]);
    } else if n <= |parent| {
      ThreeFieldsAreRefused(id, span, parent[..n]);
    } else {
      NoFlagsAreRefused(id, span, parent);
    }
  }

  lemma CutFieldsAreRefused(id: string, span: string, parent: string, flags: string, m: nat)
    requires AllHex(id) && |id| <= 32 && AllHex(span) && |span| <= 16 && AllHex(parent) && |parent| <= 16
    requires m <= |id| + |span| + |parent| + 3
    ensures FromStream(Stream((id + ":" + (span + ":" + (parent + ":" + flags)))[..m], false)).0 == EMPTY_CONTEXT
  {
    CutField(id, ':', span + ":" + (parent + ":" + flags), m);
    if m <= |id| {
      IDAloneIsRefused(id[..m]);
    } else {
      CutTailIsRefused(id, span, parent, flags, m - |id| - 1);
    }
  }

  // ---- The W3C form ----

  lemma TraceIDValue32(digits: string)
    requires AllHex(digits) && |digits| == 32
    ensures Number(TraceIDOf32(digits)) == HexValue(digits)
  {
    TraceIDValue(digits);
  }

  /** Behind the version, 32 digits, up to 16 digits and two digits, separated by dashes, are the trace
      ID, the span ID and the flags, if the trace ID is not zero. */
  lemma AnyTraceParentReads(id: string, span: string, flags: string)
    requires AllHex(id) && |id| == 32 && Digits(span, 16) && AllHex(flags) && |flags| == 2
    requires HexValue(id) > 0
    ensures var ctx := ReadTraceParent(Stream("00-" + (id + "-" + (span + "-" + flags)), false)).0;
            && Number(ctx.traceID) == HexValue(id) && ctx.spanID == HexValue(span) && ctx.flags == HexValue(flags)
            && ctx == ctx.Bare().(parentID := 0)
  {
    var tail1 := span + "-" + flags;
    TraceIDValue32(id);
    VersionReads(id + "-" + tail1);
    FieldReads(id, '-', tail1, 32);
    FieldReads(span, '-', flags, 16);
    LastFieldReads(flags, 2, '-');
    DecodeOfDigits(span);
    DecodeOfDigits(flags);
  }

  /** What is written has these fields. */
  lemma TraceParentFields(ctx: SpanContext)
    ensures var s := WriteTraceParent(ctx);
            && |s| == 55 && AllHex(s[3..35]) && AllHex(s[36..52]) && AllHex(s[53..])
            && HexValue(s[3..35]) == Number(ctx.traceID) && HexValue(s[36..52]) == ctx.spanID
            && HexValue(s[53..]) == ctx.flags
  {
    var id, span, flags := PadHex(ctx.traceID.high, 16) + PadHex(ctx.traceID.low, 16), PadHex(ctx.spanID, 16),
                           PadHex(ctx.flags, 2);
    var s := WriteTraceParent(ctx);
    IdentityReads(ctx.traceID.high, ctx.traceID.low);
    TraceIDValue32(id);
    PadHexExact(ctx.spanID);
    TwoDigitFlags(ctx.flags);
    HexValueOfPadHex(ctx.spanID, 16);
    HexValueOfPadHex(ctx.flags, 2);
    assert s[3..35] == id && s[36..52] == span && s[53..] == flags;
  }

  lemma ShortIDIsRefused(id: string)
    requires AllHex(id) && |id| <= 32
    ensures ReadAfterVersion(Stream(id, false)).0 == EMPTY_CONTEXT
  {
    EndIsNoDelimiter(id, 32, '-');
  }

  lemma SpanAloneIsRefused(id: string, span: string)
    requires AllHex(id) && |id| <= 32 && AllHex(span) && |span| <= 16
    ensures ReadAfterVersion(Stream(id + "-" + span, false)).0 == EMPTY_CONTEXT
  {
    FieldReads(id, '-', span, 32);
    EndIsNoDelimiter(span, 16, '-');
  }

  lemma ShortFlagsAreRefused(id: string, span: string, flags: string)
    requires AllHex(id) && |id| <= 32 && AllHex(span) && |span| <= 16 && AllHex(flags) && |flags| < 2
    ensures ReadAfterVersion(Stream(id + "-" + (span + "-" + flags), false)).0 == EMPTY_CONTEXT
  {
    FieldReads(id, '-', span + "-" + flags, 32);
    FieldReads(span, '-', flags, 16);
    SegmentReadsDigits(flags, "", 2, '-', "");
    assert flags + "" == flags && "" + flags == flags;
  }

  lemma CutAfterVersionIsRefused(id: string, span: string, flags: string, k: nat)
    requires AllHex(id) && |id| <= 32 && AllHex(span) && |span| <= 16 && AllHex(flags) && |flags| == 2
    requires k < |id| + |span| + 4
    ensures ReadAfterVersion(Stream((id + "-" + (span + "-" + flags))[..k], false)).0 == EMPTY_CONTEXT
  {
    CutField(id, '-', span + "-" + flags, k);
    if k <= |id| {
      ShortIDIsRefused(id[..k]);
    } else {
      var n := k - |id| - 1;
      CutField(span, '-', flags, n);
      if n <= |span| {
        SpanAloneIsRefused(id, span[..n]);
      } else {
        ShortFlagsAreRefused(id, span, flags[..n - |span| - 1]);
      }
    }
  }

  lemma CutVersionIsRefused(version: string)
    requires version == "" || version == "0" || version == "00"
    ensures ReadTraceParent(Stream(version, false)).0 == EMPTY_CONTEXT
  {
    if version == "0" {
      assert version[1..] == "";
    } else if version == "00" {
      assert version[1..] == "0" && version[1..][1..] == "";
    }
  }

  /** A written traceparent that is cut anywhere before its end is refused. */
  lemma TruncatedTraceParentIsRefused(ctx: SpanContext, m: nat)
    requires m < |WriteTraceParent(ctx)|
    ensures ReadTraceParent(Stream(WriteTraceParent(ctx)[..m], false)).0 == EMPTY_CONTEXT
  {
    var id, span, flags := PadHex(ctx.traceID.high, 16) + PadHex(ctx.traceID.low, 16), PadHex(ctx.spanID, 16),
                           PadHex(ctx.flags, 2);
    IdentityReads(ctx.traceID.high, ctx.traceID.low);
    PadHexExact(ctx.spanID);
    TwoDigitFlags(ctx.flags);
    var tail := id + "-" + (span + "-" + flags);
    assert WriteTraceParent(ctx) == "00-" + tail;
    CutTraceParentIsRefused(id, span, flags, m);
  }

  lemma CutTraceParentIsRefused(id: string, span: string, flags: string, m: nat)
    requires AllHex(id) && |id| <= 32 && AllHex(span) && |span| <= 16 && AllHex(flags) && |flags| == 2
    requires m < |id| + |span| + 7
    ensures ReadTraceParent(Stream(("00-" + (id + "-" + (span + "-" + flags)))[..m], false)).0 == EMPTY_CONTEXT
  {
    var tail := id + "-" + (span + "-" + flags);
    if m < 3 {
      assert ("00-" + tail)[..m] == "00"[..m];
      CutVersionIsRefused("00"[..m]);
    } else {
      assert ("00-" + tail)[..m] == "00-" + tail[..m - 3];
      VersionReads(tail[..m - 3]);
      CutAfterVersionIsRefused(id, span, flags, m - 3);
    }
  }
}
