/**
 Fixed-width numbers as bytes, on hosts of either byte order.  Characters stand for bytes.
 */
module BinaryNumbers {
  import opened HexParsing

  // ---- Numbers as bytes ----

  function Pow256(n: nat): (p: nat)
    ensures p > 0
  {
    if n == 0 then 1 else 256 * Pow256(n - 1)
  }

  /** Byte `i` of `n`, most significant first: the number shifted right by the bytes behind it. */
  function ByteAt(v: nat, n: nat, i: nat): (ch: char)
    requires i < n
    ensures ch as int < 256
  {
    (v / Pow256(n - 1 - i) % 256) as char
  }

  /** The low `n` bytes of a number. */
  function BytesOf(v: nat, n: nat): (s: string)
    ensures |s| == n
  {
    seq(n, i requires 0 <= i < n => ByteAt(v, n, i))
  }

  function ByteValue(ch: char): (b: nat)
    ensures b < 256
  {
    ch as int % 256
  }

  function ValueOf(s: string): nat {
    if s == "" then 0 else ValueOf(s[..|s| - 1]) * 256 + ByteValue(s[|s| - 1])
  }

  function Reverse(s: string): (r: string)
    ensures |r| == |s| && forall i | 0 <= i < |s| :: r[i] == s[|s| - 1 - i]
  {
    seq(|s|, i requires 0 <= i < |s| => s[|s| - 1 - i])
  }

  datatype Host = BigEndian | LittleEndian

  /** toBigEndian and fromBigEndian on an n-byte number: on a little-endian host both reverse
      the bytes of the value. */
  function Swap(host: Host, v: nat, n: nat): nat {
    if host.BigEndian? then v else ValueOf(Reverse(BytesOf(v, n)))
  }

  lemma DivideTwice(v: nat, b: nat)
    requires b > 0
    ensures v / 256 / b == v / (256 * b)
  {
    var q, m := v / 256 / b, v / 256 % b;
    assert v / 256 == q * b + m;
    assert q * (256 * b) == 256 * (q * b);
    QuotientUnique(v, 256 * b, q, 256 * m + v % 256);
  }

  lemma QuotientUnique(v: nat, d: nat, q: nat, r: nat)
    requires v == q * d + r && r < d
    ensures v / d == q
  {
    var k, m := v / d, v % d;
    assert v == k * d + m;
    if k > q {
      ProductGrows(q + 1, k, d);
    } else if k < q {
      ProductGrows(k + 1, q, d);
    }
  }

  lemma ProductGrows(a: nat, b: nat, d: nat)
    requires a <= b
    ensures a * d <= b * d
  {
    assert (b - a) * d >= 0;
  }

  /** The last byte is the number's remainder, the bytes before it are its quotient. */
  lemma BytesOfStep(v: nat, n: nat)
    requires n > 0
    ensures BytesOf(v, n) == BytesOf(v / 256, n - 1) + [(v % 256) as char]
  {
    forall i | 0 <= i < n - 1 ensures BytesOf(v, n)[i] == BytesOf(v / 256, n - 1)[i] {
      DivideTwice(v, Pow256(n - 2 - i));
    }
  }

  lemma {:induction false} ValueBound(s: string)
    ensures ValueOf(s) < Pow256(|s|)
  {
    if s != "" {
      ValueBound(s[..|s| - 1]);
    }
  }

  lemma ValuePush(s: string, ch: char)
    ensures ValueOf(s + [ch]) == ValueOf(s) * 256 + ByteValue(ch)
  {
    assert (s + [ch])[..|s|] == s;
  }

  lemma {:induction false} ValueOfBytes(v: nat, n: nat)
    requires v < Pow256(n)
    ensures ValueOf(BytesOf(v, n)) == v
  {
    if n > 0 {
      ValueOfBytes(v / 256, n - 1);
      BytesOfStep(v, n);
      ValuePush(BytesOf(v / 256, n - 1), (v % 256) as char);
    }
  }

  predicate IsBytes(s: string) {
    forall i | 0 <= i < |s| :: s[i] as int < 256
  }

  lemma {:induction false} BytesOfValue(s: string)
    requires IsBytes(s)
    ensures BytesOf(ValueOf(s), |s|) == s
  {
    if s != "" {
      var front, last := s[..|s| - 1], s[|s| - 1];
      BytesOfValue(front);
      assert ValueOf(s) / 256 == ValueOf(front) && ValueOf(s) % 256 == last as int;
      BytesOfStep(ValueOf(s), |s|);
      assert s == front + [last];
    }
  }

  /** Both byte-order functions undo each other on every host. */
  lemma {:induction false} SwapTwice(host: Host, v: nat, n: nat)
    requires v < Pow256(n)
    ensures Swap(host, v, n) < Pow256(n) && Swap(host, Swap(host, v, n), n) == v
  {
    if host.LittleEndian? {
      var bytes := BytesOf(v, n);
      ValueBound(Reverse(bytes));
      BytesOfValue(Reverse(bytes));
      assert Reverse(Reverse(bytes)) == bytes;
      ValueOfBytes(v, n);
    }
  }

  lemma SwapOfZero(host: Host, v: nat, n: nat)
    requires v < Pow256(n)
    ensures Swap(host, v, n) == 0 <==> v == 0
  {
    if host.LittleEndian? {
      assert Reverse(BytesOf(0, n)) == BytesOf(0, n);
      ValueOfBytes(0, n);
      SwapTwice(host, v, n);
    }
  }

  lemma {:induction false} ValueIsZero(s: string)
    ensures ValueOf(s) == 0 <==> forall i | 0 <= i < |s| :: ByteValue(s[i]) == 0
  {
    if s != "" {
      ValueIsZero(s[..|s| - 1]);
      assert s == s[..|s| - 1] + [s[|s| - 1]];
    }
  }

  // ---- writeBinary and readBinary ----

  /** How numbers travel from and to a host: a number's bytes, and the number that up to `n`
      bytes stand for. */
  function NumberBytes(host: Host, v: nat, n: nat): (s: string)
    ensures |s| == n
  {
    BytesOf(Swap(host, v, n), n)
  }

  function NumberOf(host: Host, s: string, n: nat): nat {
    Swap(host, ValueOf(s), n)
  }

  lemma NumberFits(host: Host, s: string, n: nat)
    requires |s| <= n
    ensures NumberOf(host, s, n) < Pow256(n)
  {
    ValueBound(s);
    Pow256Grows(|s|, n);
    SwapTwice(host, ValueOf(s), n);
  }

  predicate ZeroBytes(s: string) {
    forall i | 0 <= i < |s| :: ByteValue(s[i]) == 0
  }

  /** Up to `n` bytes, fewer if the input ends. */
  function ReadBinary(host: Host, s: Stream, n: nat): (nat, Stream) {
    if s.failed then (NumberOf(host, "", n), s)
    else if |s.rest| < n then (NumberOf(host, s.rest, n), Stream("", true))
    else (NumberOf(host, s.rest[..n], n), Stream(s.rest[n..], false))
  }

  lemma ReadFits(host: Host, s: Stream, n: nat)
    ensures ReadBinary(host, s, n).0 < Pow256(n)
  {
    NumberFits(host, "", n);
    NumberFits(host, if |s.rest| < n then s.rest else s.rest[..n], n);
  }

  /** On a big-endian host numbers travel in network order, on a little-endian host in the
      opposite order, which is the same only for numbers whose bytes read alike from both ends. */
  lemma {:induction false} WireOrder(v: nat, n: nat)
    requires v < Pow256(n)
    ensures NumberBytes(BigEndian, v, n) == BytesOf(v, n)
    ensures NumberBytes(LittleEndian, v, n) == Reverse(BytesOf(v, n))
    ensures NumberBytes(LittleEndian, v, n) == NumberBytes(BigEndian, v, n) <==>
              forall i | 0 <= i < n :: ByteAt(v, n, i) == ByteAt(v, n, n - 1 - i)
  {
    BytesOfValue(Reverse(BytesOf(v, n)));
    assert forall i | 0 <= i < n ::
        BytesOf(v, n)[i] == ByteAt(v, n, i) && Reverse(BytesOf(v, n))[i] == ByteAt(v, n, n - 1 - i);
  }

  lemma NumberReadsBack(host: Host, v: nat, n: nat)
    requires v < Pow256(n)
    ensures NumberOf(host, NumberBytes(host, v, n), n) == v
  {
    SwapTwice(host, v, n);
    ValueOfBytes(Swap(host, v, n), n);
  }

  /** Read on the other kind of host, a number comes out with its bytes reversed. */
  lemma {:induction false} OtherHostReversesBytes(v: nat, n: nat)
    requires v < Pow256(n)
    ensures NumberOf(BigEndian, NumberBytes(LittleEndian, v, n), n) == Swap(LittleEndian, v, n)
    ensures NumberOf(LittleEndian, NumberBytes(BigEndian, v, n), n) == Swap(LittleEndian, v, n)
  {
    SwapTwice(LittleEndian, v, n);
    ValueOfBytes(Swap(LittleEndian, v, n), n);
    ValueOfBytes(v, n);
  }

  lemma Pow256Values()
    ensures Pow256(4) == 0x1_0000_0000 && Pow256(8) == U64_RANGE
  {
    assert Pow256(2) == 0x1_0000;
    assert Pow256(4) == 0x1_0000 * Pow256(2);
    assert Pow256(6) == 0x1_0000 * Pow256(4);
    assert Pow256(8) == 0x1_0000 * Pow256(6);
  }

  lemma {:induction false} Pow256Grows(m: nat, n: nat)
    requires m <= n
    ensures Pow256(m) <= Pow256(n)
  {
    if m < n {
      Pow256Grows(m, n - 1);
    }
  }

  lemma ZeroNumber(host: Host, s: string, n: nat)
    requires |s| <= n
    ensures NumberOf(host, s, n) == 0 <==> ZeroBytes(s)
  {
    ValueBound(s);
    Pow256Grows(|s|, n);
    SwapOfZero(host, ValueOf(s), n);
    ValueIsZero(s);
  }

  /** On every host a 64-bit number and a 32-bit number read back, whatever follows. */
  lemma EveryHostIsFaithful(host: Host, id: u64, length: u32, tail: string)
    ensures ReadBinary(host, Stream(NumberBytes(host, id, 8) + tail, false), 8) == (id, Stream(tail, false))
    ensures ReadBinary(host, Stream(NumberBytes(host, length, 4) + tail, false), 4) == (length, Stream(tail, false))
  {
    Pow256Values();
    NumberReadsBack(host, id, 8);
    NumberReadsBack(host, length, 4);
    BytesThenTail(NumberBytes(host, id, 8), tail);
    BytesThenTail(NumberBytes(host, length, 4), tail);
  }

  lemma BytesThenTail(bytes: string, tail: string)
    ensures (bytes + tail)[..|bytes|] == bytes && (bytes + tail)[|bytes|..] == tail
  {
  }

  method WriteNumber(host: Host, v: nat, n: nat) returns (out: string)
    ensures out == NumberBytes(host, v, n)
  {
    var outValue := Swap(host, v, n);
    out := "";
    for i := 0 to n
      invariant out == BytesOf(outValue, n)[..i]
    {
      out := out + [ByteAt(outValue, n, i)];
    }
  }

  /** `bytes` were read and `rest` is left. */
  lemma PartRead(host: Host, s: Stream, bytes: string, rest: string, n: nat)
    requires s.rest == bytes + rest && |bytes| <= n
    requires s.failed ==> bytes == ""
    requires |bytes| < n ==> s.failed || rest == ""
    ensures ReadBinary(host, s, n) == (NumberOf(host, bytes, n), Stream(rest, s.failed || |bytes| < n))
  {
    assert s.rest[..|bytes|] == bytes && s.rest[|bytes|..] == rest;
    assert bytes + "" == bytes && "" + rest == rest;
  }

  method ReadNumber(host: Host, input: IStream, n: nat) returns (v: nat)
    modifies input
    ensures (v, input.Now()) == ReadBinary(host, old(input.Now()), n)
  {
    ghost var bytes := "";
    var value := 0;
    var i := 0;
    assert bytes + input.rest == input.rest;
    while i < n
      invariant i <= n && |bytes| == i && value == ValueOf(bytes)
      invariant old(input.failed) ==> i == 0
      invariant input.failed == old(input.failed) && old(input.rest) == bytes + input.rest
    {
      ghost var before := input.rest;
      var ok, ch := input.Get();
      if !ok {
        PartRead(host, old(input.Now()), bytes, input.rest, n);
        return Swap(host, value, n);
      }
      assert bytes + before == (bytes + [ch]) + input.rest;
      ValuePush(bytes, ch);
      value := value * 256 + ByteValue(ch);
      bytes := bytes + [ch];
      i := i + 1;
    }
    PartRead(host, old(input.Now()), bytes, input.rest, n);
    return Swap(host, value, n);
  }
}
