/**
 The binary form of a context from outside: where its parts are, and what a number reads as that is
 cut short.
 */
module BinaryLayouts {
  import opened HexParsing
  import opened SpanContexts
  import opened Propagation
  import opened BinaryNumbers
  import opened BinaryPropagation

  // ---- Layout ----

  lemma Behind(a: string, b: string)
    ensures (a + b)[..|a|] == a && (a + b)[|a|..] == b
  {
  }

  /** Where the numbers of the header are: the trace ID's halves, the span ID, the parent's, the flags
      and the number of baggage items; the items follow. */
  lemma HeaderLayout(host: Host, ctx: SpanContext, items: seq<Header>)
    ensures var s := Inject(host, ctx, items);
            && |s| >= 37
            && s[..8] == NumberBytes(host, ctx.traceID.high, 8) && s[8..16] == NumberBytes(host, ctx.traceID.low, 8)
            && s[16..24] == NumberBytes(host, ctx.spanID, 8) && s[24..32] == NumberBytes(host, ctx.parentID, 8)
            && s[32] == ctx.flags as char
            && s[33..37] == NumberBytes(host, |items| % 0x1_0000_0000, 4) && s[37..] == WriteItems(host, items)
  {
    var s, rest := Inject(host, ctx, items), WriteBaggage(host, items);
    ByteBehindIDs(host, ctx, rest);
    IDsLayout(host, ctx, rest);
    Behind(NumberBytes(host, |items| % 0x1_0000_0000, 4), WriteItems(host, items));
    assert s[33..37] == s[33..][..4] && s[37..] == s[33..][4..];
  }

  lemma IDsLayout(host: Host, ctx: SpanContext, tail: string)
    ensures var s := WriteIDs(host, ctx, tail);
            && |s| >= 33
            && s[..8] == NumberBytes(host, ctx.traceID.high, 8) && s[8..16] == NumberBytes(host, ctx.traceID.low, 8)
            && s[16..24] == NumberBytes(host, ctx.spanID, 8) && s[24..32] == NumberBytes(host, ctx.parentID, 8)
            && s[32] == ctx.flags as char
  {
    FourThenRest(NumberBytes(host, ctx.traceID.high, 8), NumberBytes(host, ctx.traceID.low, 8),
                 NumberBytes(host, ctx.spanID, 8), NumberBytes(host, ctx.parentID, 8), [ctx.flags as char] + tail);
  }

  lemma FourThenRest(a: string, b: string, c: string, d: string, rest: string)
    requires |a| == |b| == |c| == |d| == 8 && rest != ""
    ensures var s := a + (b + (c + (d + rest)));
            s[..8] == a && s[8..16] == b && s[16..24] == c && s[24..32] == d && s[32] == rest[0]
  {
  }

  /** Each item is its key behind the key's length, and its value behind the value's. */
  lemma ItemLayout(host: Host, item: Header, tail: string)
    ensures var s, k, v := WriteItem(host, item, tail), |item.0|, |item.1|;
            && |s| == 8 + k + v + |tail|
            && s[..4] == NumberBytes(host, Length32(item.0), 4) && s[4..4 + k] == item.0
            && s[4 + k..8 + k] == NumberBytes(host, Length32(item.1), 4) && s[8 + k..8 + k + v] == item.1
            && s[8 + k + v..] == tail
  {
  }

  // ---- Numbers cut short ----

  /** A number without its last `m` bytes. */
  function Shifted(v: nat, m: nat): nat {
    if m == 0 then v else Shifted(v / 256, m - 1)
  }

  lemma {:induction false} ShiftedIsQuotient(v: nat, m: nat)
    ensures Shifted(v, m) == v / Pow256(m)
  {
    if m > 0 {
      ShiftedIsQuotient(v / 256, m - 1);
      DivideTwice(v, Pow256(m - 1));
    }
  }

  lemma {:induction false} ShiftedFits(v: nat, n: nat, m: nat)
    requires m <= n && v < Pow256(n)
    ensures Shifted(v, m) < Pow256(n - m)
  {
    if m > 0 {
      ShiftedFits(v / 256, n - 1, m - 1);
    }
  }

  /** The leading bytes of a number are those of the number without the others. */
  lemma {:induction false} LeadingBytes(v: nat, n: nat, m: nat)
    requires m <= n
    ensures BytesOf(v, n)[..n - m] == BytesOf(Shifted(v, m), n - m)
    decreases m
  {
    if m > 0 {
      BytesOfStep(v, n);
      LeadingBytes(v / 256, n - 1, m - 1);
      Behind(BytesOf(v / 256, n - 1), [(v % 256) as char]);
      assert BytesOf(v, n)[..n - m] == BytesOf(v / 256, n - 1)[..n - m];
    }
  }

  lemma ShortRead(bytes: string, n: nat)
    requires |bytes| < n
    ensures ReadBinary(BigEndian, Stream(bytes, false), n) == (ValueOf(bytes), Stream("", true))
  {
  }

  /** In network order, a number whose last `m` bytes are missing reads as its quotient. */
  lemma ShortNumber(v: nat, n: nat, m: nat)
    requires v < Pow256(n) && 0 < m <= n
    ensures ReadBinary(BigEndian, Stream(NumberBytes(BigEndian, v, n)[..n - m], false), n)
         == (v / Pow256(m), Stream("", true))
  {
    LeadingBytes(v, n, m);
    ShiftedFits(v, n, m);
    ValueOfBytes(Shifted(v, m), n - m);
    ShortRead(BytesOf(Shifted(v, m), n - m), n);
    ShiftedIsQuotient(v, m);
  }
}
