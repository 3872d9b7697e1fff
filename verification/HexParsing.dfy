/**
 Text input streams and the hexadecimal numbers read from and printed to them.
 */
module HexParsing {

  type u8 = x: int | 0 <= x < 0x100
  type u32 = x: int | 0 <= x < 0x1_0000_0000
  type u64 = x: int | 0 <= x < 0x1_0000_0000_0000_0000

  const U8_RANGE := 0x100
  const U64_RANGE := 0x1_0000_0000_0000_0000

  /** What is left to read, and whether an operation has failed (failbit). */
  datatype Stream = Stream(rest: string, failed: bool)

  predicate IsHex(ch: char) {
    '0' <= ch <= '9' || 'A' <= ch <= 'F' || 'a' <= ch <= 'f'
  }

  predicate AllHex(s: string) {
    forall i | 0 <= i < |s| :: IsHex(s[i])
  }

  function HexDigit(ch: char): (d: nat)
    requires IsHex(ch)
    ensures d < 16
  {
    if ch <= '9' then ch as int - '0' as int
    else if ch <= 'F' then ch as int - 'A' as int + 10
    else ch as int - 'a' as int + 10
  }

  /** Conversion to an unsigned type of `range` values. */
  function Wrap(v: nat, range: nat): (r: nat)
    requires range > 0
    ensures r < range && (v < range ==> r == v)
  {
    v % range
  }

  /** decodeHex for a result type of `range` values. */
  function DecodeHex(s: string, range: nat): (v: nat)
    requires AllHex(s) && range > 0
    ensures v < range
  {
    if s == "" then 0
    else Wrap(DecodeHex(s[..|s| - 1], range) * 16 + HexDigit(s[|s| - 1]), range)
  }

  /** readSegment: up to `maxChars` hex digits, stopping before `delim`, at the end of input,
      or, giving up what was read, behind any other character. */
  function Segment(s: Stream, maxChars: nat, delim: char, taken: string): (r: (string, Stream))
    requires AllHex(taken)
    ensures AllHex(r.0) && |r.0| <= |taken| + maxChars
    decreases maxChars
  {
    if maxChars == 0 then (taken, s)
    else if s.failed || s.rest == "" then (taken, s.(failed := true))
    else if IsHex(s.rest[0]) then Segment(s.(rest := s.rest[1..]), maxChars - 1, delim, taken + [s.rest[0]])
    else if s.rest[0] == delim then (taken, s)
    else ("", s.(rest := s.rest[1..]))
  }

  // ---- Printing ----

  function LowerDigit(d: nat): (ch: char)
    requires d < 16
    ensures IsHex(ch) && HexDigit(ch) == d
  {
    "0123456789abcdef"[d]
  }

  /** A number printed with std::hex. */
  function Hex(v: nat): (s: string)
    ensures AllHex(s) && |s| >= 1
  {
    if v < 16 then [LowerDigit(v)] else Hex(v / 16) + [LowerDigit(v % 16)]
  }

  function Zeros(n: nat): (s: string)
    ensures |s| == n && AllHex(s) && forall i | 0 <= i < n :: s[i] == '0'
  {
    seq(n, _ => '0')
  }

  /** The same with setw(width) and setfill('0'). */
  function PadHex(v: nat, width: nat): (s: string)
    ensures AllHex(s) && |s| >= width
  {
    Zeros(if |Hex(v)| < width then width - |Hex(v)| else 0) + Hex(v)
  }

  function Pow16(n: nat): (p: nat)
    ensures p > 0
  {
    if n == 0 then 1 else 16 * Pow16(n - 1)
  }

  lemma {:induction false} HexFits(v: nat, width: nat)
    requires 1 <= width && v < Pow16(width)
    ensures |Hex(v)| <= width
  {
    if v >= 16 {
      HexFits(v / 16, width - 1);
    }
  }

  lemma PadHexExact(v: u64)
    ensures |PadHex(v, 16)| == 16
  {
    assert Pow16(4) == 0x1_0000;
    assert Pow16(8) == 0x1_0000_0000 by { assert Pow16(8) == 0x1_0000 * Pow16(4); }
    assert Pow16(12) == 0x1_0000 * Pow16(8);
    assert Pow16(16) == 0x1_0000 * Pow16(12);
    HexFits(v, 16);
  }

  lemma DecodePush(s: string, ch: char, range: nat)
    requires AllHex(s) && IsHex(ch) && range > 0
    ensures DecodeHex(s + [ch], range) == Wrap(DecodeHex(s, range) * 16 + HexDigit(ch), range)
  {
    assert (s + [ch])[..|s|] == s;
  }

  lemma {:induction false} DecodeOfHex(v: nat, range: nat)
    requires v < range
    ensures DecodeHex(Hex(v), range) == v
  {
    if v < 16 {
      assert Hex(v) == "" + [LowerDigit(v)];
      DecodePush("", LowerDigit(v), range);
    } else {
      DecodeOfHex(v / 16, range);
      DecodePush(Hex(v / 16), LowerDigit(v % 16), range);
      assert v / 16 * 16 + v % 16 == v;
    }
  }

  lemma {:induction false} DecodeOfZeros(n: nat, range: nat)
    requires range > 0
    ensures DecodeHex(Zeros(n), range) == 0
  {
    if n > 0 {
      DecodeOfZeros(n - 1, range);
      assert Zeros(n)[..n - 1] == Zeros(n - 1);
    }
  }

  lemma {:induction false} DecodeSkipsZeros(n: nat, s: string, range: nat)
    requires AllHex(s) && range > 0
    ensures AllHex(Zeros(n) + s) && DecodeHex(Zeros(n) + s, range) == DecodeHex(s, range)
    decreases |s|
  {
    if s == "" {
      DecodeOfZeros(n, range);
      assert Zeros(n) + s == Zeros(n);
    } else {
      var front, last := s[..|s| - 1], s[|s| - 1];
      DecodeSkipsZeros(n, front, range);
      DecodePush(Zeros(n) + front, last, range);
      assert Zeros(n) + s == Zeros(n) + front + [last];
    }
  }

  /** Reading back a printed number gives the number, padded or not. */
  lemma DecodeOfPadHex(v: nat, width: nat, range: nat)
    requires v < range
    ensures DecodeHex(PadHex(v, width), range) == v
  {
    DecodeSkipsZeros(if |Hex(v)| < width then width - |Hex(v)| else 0, Hex(v), range);
    DecodeOfHex(v, range);
  }

  /** A segment is exactly the run of digits before the delimiter, the end of input or the
      limit; only the end of input sets the failure bit. */
  lemma {:induction false} SegmentReadsDigits(digits: string, tail: string, maxChars: nat, delim: char, taken: string)
    requires AllHex(taken) && AllHex(digits) && |digits| <= maxChars && !IsHex(delim)
    requires |digits| == maxChars || tail == "" || tail[0] == delim
    ensures Segment(Stream(digits + tail, false), maxChars, delim, taken)
         == (taken + digits, Stream(tail, |digits| < maxChars && tail == ""))
    decreases |digits|
  {
    if digits == "" {
      assert digits + tail == tail;
      assert taken + digits == taken;
    } else {
      assert (digits + tail)[1..] == digits[1..] + tail;
      SegmentReadsDigits(digits[1..], tail, maxChars - 1, delim, taken + [digits[0]]);
      assert taken + [digits[0]] + digits[1..] == taken + digits;
    }
  }

  // ---- Numbers in base 16 ----

  /** The number that any digits stand for. */
  function HexValue(s: string): nat
    requires AllHex(s)
  {
    if s == "" then 0 else HexValue(s[..|s| - 1]) * 16 + HexDigit(s[|s| - 1])
  }

  lemma HexValuePush(s: string, ch: char)
    requires AllHex(s) && IsHex(ch)
    ensures HexValue(s + [ch]) == HexValue(s) * 16 + HexDigit(ch)
  {
    assert (s + [ch])[..|s|] == s;
  }

  lemma {:induction false} HexValueBound(s: string)
    requires AllHex(s)
    ensures HexValue(s) < Pow16(|s|)
  {
    if s != "" {
      HexValueBound(s[..|s| - 1]);
    }
  }

  lemma {:induction false} Pow16Grows(m: nat, n: nat)
    requires m <= n
    ensures Pow16(m) <= Pow16(n)
  {
    if m < n {
      Pow16Grows(m, n - 1);
    }
  }

  /** decodeHex computes that number as long as it has no more digits than the type. */
  lemma {:induction false} DecodeIsValue(s: string, range: nat)
    requires AllHex(s) && range >= Pow16(|s|)
    ensures DecodeHex(s, range) == HexValue(s)
  {
    HexValueBound(s);
    if s != "" {
      Pow16Grows(|s| - 1, |s|);
      DecodeIsValue(s[..|s| - 1], range);
    }
  }

  lemma {:induction false} HexValueConcat(a: string, b: string)
    requires AllHex(a) && AllHex(b)
    ensures AllHex(a + b) && HexValue(a + b) == HexValue(a) * Pow16(|b|) + HexValue(b)
    decreases |b|
  {
    if b == "" {
      assert a + b == a;
    } else {
      var front, last := b[..|b| - 1], b[|b| - 1];
      HexValueConcat(a, front);
      assert a + b == (a + front) + [last];
      HexValuePush(a + front, last);
      ShiftSum(HexValue(a), Pow16(|front|), HexValue(front));
    }
  }

  lemma ShiftSum(x: nat, y: nat, z: nat)
    ensures (x * y + z) * 16 == x * (16 * y) + z * 16
  {
  }

  lemma {:induction false} HexValueOfHex(v: nat)
    ensures HexValue(Hex(v)) == v
  {
    if v < 16 {
      HexValuePush("", LowerDigit(v));
      assert Hex(v) == "" + [LowerDigit(v)];
    } else {
      HexValueOfHex(v / 16);
      HexValuePush(Hex(v / 16), LowerDigit(v % 16));
    }
  }

  lemma {:induction false} HexValueOfZeros(n: nat)
    ensures HexValue(Zeros(n)) == 0
  {
    if n > 0 {
      HexValueOfZeros(n - 1);
      assert Zeros(n)[..n - 1] == Zeros(n - 1);
    }
  }

  /** A printed number, padded or not, stands for it. */
  lemma HexValueOfPadHex(v: nat, width: nat)
    ensures HexValue(PadHex(v, width)) == v
  {
    var zeros := Zeros(if |Hex(v)| < width then width - |Hex(v)| else 0);
    HexValueConcat(zeros, Hex(v));
    HexValueOfZeros(|zeros|);
    HexValueOfHex(v);
  }

  lemma Pow16Values()
    ensures Pow16(2) == U8_RANGE && Pow16(16) == U64_RANGE
  {
    assert Pow16(4) == 0x1_0000;
    assert Pow16(8) == 0x1_0000 * Pow16(4);
    assert Pow16(12) == 0x1_0000 * Pow16(8);
    assert Pow16(16) == 0x1_0000 * Pow16(12);
  }

  /** Up to 16 digits are a 64-bit number, up to two a byte. */
  lemma DecodeOfDigits(s: string)
    requires AllHex(s)
    ensures |s| <= 16 ==> DecodeHex(s, U64_RANGE) == HexValue(s)
    ensures |s| <= 2 ==> DecodeHex(s, U8_RANGE) == HexValue(s)
  {
    Pow16Values();
    if |s| <= 16 {
      Pow16Grows(|s|, 16);
      DecodeIsValue(s, U64_RANGE);
    }
    if |s| <= 2 {
      Pow16Grows(|s|, 2);
      DecodeIsValue(s, U8_RANGE);
    }
  }

  // ---- The stream object ----

  class IStream {
    var rest: string
    var failed: bool

    function Now(): Stream
      reads this
    {
      Stream(rest, failed)
    }

    constructor (text: string)
      ensures Now() == Stream(text, false)
    {
      rest, failed := text, false;
    }

    /** get: one character, or failure at the end of input and ever after. */
    method Get() returns (ok: bool, ch: char)
      modifies this
      ensures ok <==> !old(failed) && old(rest) != ""
      ensures ok ==> ch == old(rest)[0] && Now() == Stream(old(rest)[1..], false)
      ensures !ok ==> Now() == Stream(old(rest), true)
    {
      if failed || rest == "" {
        failed := true;
        return false, '\0';
      }
      ch := rest[0];
      rest := rest[1..];
      return true, ch;
    }

    method PutBack(ch: char)
      requires !failed
      modifies this
      ensures Now() == Stream([ch] + old(rest), false)
    {
      rest := [ch] + rest;
    }

    method Clear()
      modifies this
      ensures Now() == Stream(old(rest), false)
    {
      failed := false;
    }

    method ReadSegment(maxChars: nat, delim: char) returns (buffer: string)
      modifies this
      ensures (buffer, Now()) == Segment(old(Now()), maxChars, delim, "")
    {
      buffer := "";
      var i := 0;
      while i < maxChars
        invariant i <= maxChars && AllHex(buffer)
        invariant Segment(Now(), maxChars - i, delim, buffer) == Segment(old(Now()), maxChars, delim, "")
      {
        ghost var before := rest;
        var ok, ch := Get();
        if !ok {
          return;
        }
        if !IsHex(ch) {
          if ch == delim {
            PutBack(ch);
            assert rest == before;
            return;
          }
          return "";
        }
        buffer := buffer + [ch];
        i := i + 1;
      }
    }
  }

  method DecodeHexDigits(s: string, range: nat) returns (result: nat)
    requires AllHex(s) && range > 0
    ensures result == DecodeHex(s, range)
  {
    result := 0;
    for i := 0 to |s|
      invariant result == DecodeHex(s[..i], range)
    {
      assert s[..i + 1][..i] == s[..i];
      result := Wrap(result * 16 + HexDigit(s[i]), range);
    }
    assert s[..|s|] == s;
  }
}
