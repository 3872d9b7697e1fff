/**
 Percent-encoding of query strings and header values (RFC 3986, section 2.1), as the client
 implements it.  Characters stand for bytes.
 */
module QueryEncoding {
  import opened HexParsing

  predicate IsUnreserved(ch: char) {
    || 'A' <= ch <= 'Z' || 'a' <= ch <= 'z' || '0' <= ch <= '9'
    || ch == '-' || ch == '.' || ch == '_' || ch == '~'
  }

  function UpperDigit(d: nat): (ch: char)
    requires d < 16
    ensures IsHex(ch) && IsUnreserved(ch) && HexDigit(ch) == d
  {
    "0123456789ABCDEF"[d]
  }

  /** Whether the host's char is signed. */
  datatype CharType = SignedChar | UnsignedChar

  /** std::uppercase and std::hex on the char widened to int: no padding below 0x10, and eight digits
      from 0x80 up if the sign is extended. */
  function IntHex(chars: CharType, ch: char): string {
    var byte := ch as int;
    if byte < 0x10 then [UpperDigit(byte)]
    else if chars.SignedChar? && byte >= 0x80 then
      "FFFFFF" + [UpperDigit(8 + byte % 0x80 / 16), UpperDigit(byte % 16)]
    else [UpperDigit(byte / 16 % 16), UpperDigit(byte % 16)]
  }

  function EscapeChar(chars: CharType, ch: char): (s: string)
    ensures s != "" && '=' !in s && '&' !in s
  {
    if IsUnreserved(ch) then [ch] else "%" + IntHex(chars, ch)
  }

  function Escape(chars: CharType, s: string): string {
    if s == "" then "" else EscapeChar(chars, s[0]) + Escape(chars, s[1..])
  }

  datatype UnescapeState = Default | Percent | FirstHex(digit: nat)

  /** What one character adds to the output, and the state it leaves. */
  function UnescapeStep(state: UnescapeState, ch: char): (string, UnescapeState)
    requires state.FirstHex? ==> state.digit < 16
  {
    match state
    case Default => if ch == '%' then ("", Percent) else ([ch], Default)
    case Percent => if IsHex(ch) then ("", FirstHex(HexDigit(ch))) else (['%', ch], Default)
    case FirstHex(digit) =>
      if IsHex(ch) then ([(digit * 16 + HexDigit(ch)) as char], Default)
      else (['%', LowerDigit(digit), ch], Default)
  }

  function UnescapeFrom(state: UnescapeState, s: string): string
    requires state.FirstHex? ==> state.digit < 16
    decreases |s|
  {
    if s == "" then ""
    else
      var (output, next) := UnescapeStep(state, s[0]);
      output + UnescapeFrom(next, s[1..])
  }

  function Unescape(s: string): string {
    UnescapeFrom(Default, s)
  }

  lemma ConcatAssociates(a: string, b: string, c: string)
    ensures (a + b) + c == a + (b + c)
  {
  }

  method QueryEscape(chars: CharType, input: string) returns (output: string)
    ensures output == Escape(chars, input)
  {
    output := "";
    for i := 0 to |input|
      invariant output + Escape(chars, input[i..]) == Escape(chars, input)
    {
      var ch := input[i];
      assert input[i..][1..] == input[i + 1..];
      ConcatAssociates(output, EscapeChar(chars, ch), Escape(chars, input[i + 1..]));
      if IsUnreserved(ch) {
        output := output + [ch];
      } else {
        output := output + ("%" + IntHex(chars, ch));
      }
    }
  }

  method QueryUnescape(input: string) returns (output: string)
    ensures output == Unescape(input)
  {
    output := "";
    var hex: nat := 0;
    var state := Default;
    for i := 0 to |input|
      invariant state.FirstHex? ==> state.digit == hex < 16
      invariant output + UnescapeFrom(state, input[i..]) == Unescape(input)
    {
      var ch := input[i];
      ghost var (added, next) := UnescapeStep(state, ch);
      ghost var before := output;
      assert UnescapeFrom(state, input[i..]) == added + UnescapeFrom(next, input[i + 1..]) by {
        assert input[i..][1..] == input[i + 1..];
      }
      ConcatAssociates(output, added, UnescapeFrom(next, input[i + 1..]));
      assert before + "" == before;
      match state {
        case Default =>
          if ch == '%' {
            state := Percent;
          } else {
            output := output + [ch];
          }
        case Percent =>
          if IsHex(ch) {
            hex := HexDigit(ch);
            state := FirstHex(hex);
          } else {
            state := Default;
            output := output + ['%', ch];
          }
        case FirstHex(_) =>
          if IsHex(ch) {
            output := output + [(hex * 16 + HexDigit(ch)) as char];
          } else {
            output := output + ['%', LowerDigit(hex), ch];
          }
          state, hex := Default, 0;
      }
      assert output == before + added && state == next;
    }
  }

  // ---- Which strings survive escaping ----

  /** Bytes that are written as themselves or as '%' and two digits. */
  predicate Writable(chars: CharType, ch: char) {
    0x10 <= ch as int < if chars.SignedChar? then 0x80 else 0x100
  }

  predicate Escapable(chars: CharType, s: string) {
    forall i | 0 <= i < |s| :: Writable(chars, s[i])
  }

  function EscapedAndBack(chars: CharType, s: string): string {
    Unescape(Escape(chars, s))
  }

  lemma {:induction false} UnescapePlain(plain: string, rest: string)
    requires '%' !in plain
    ensures Unescape(plain + rest) == plain + Unescape(rest)
  {
    if plain == "" {
      assert plain + rest == rest;
    } else {
      assert (plain + rest)[1..] == plain[1..] + rest;
      UnescapePlain(plain[1..], rest);
    }
  }

  lemma UnescapeIsIdentityWithoutPercent(s: string)
    requires '%' !in s
    ensures Unescape(s) == s
  {
    UnescapePlain(s, "");
    assert s + "" == s;
  }

  lemma UnescapePair(first: char, second: char, rest: string)
    requires IsHex(first) && IsHex(second)
    ensures Unescape(['%', first, second] + rest)
         == [(HexDigit(first) * 16 + HexDigit(second)) as char] + Unescape(rest)
  {
    var s := ['%', first, second] + rest;
    assert s[1..][1..][1..] == rest;
    assert Unescape(s) == UnescapeFrom(Percent, s[1..]);
    assert UnescapeFrom(Percent, s[1..]) == UnescapeFrom(FirstHex(HexDigit(first)), s[1..][1..]);
  }

  /** A writable byte is written with the two digits it is read from. */
  lemma TwoDigits(chars: CharType, ch: char)
    requires Writable(chars, ch)
    ensures var first, second := ch as int / 16, ch as int % 16;
            && first < 16 && (first * 16 + second) as char == ch
            && IntHex(chars, ch) == [UpperDigit(first), UpperDigit(second)]
  {
    var first, second := ch as int / 16, ch as int % 16;
    assert first * 16 + second == ch as int;
    assert first < 16 && first % 16 == first;
  }

  lemma WritableComesBack(chars: CharType, ch: char, rest: string)
    requires Writable(chars, ch)
    ensures Unescape(EscapeChar(chars, ch) + rest) == [ch] + Unescape(rest)
  {
    if IsUnreserved(ch) {
      UnescapePlain([ch], rest);
    } else {
      TwoDigits(chars, ch);
      var first, second := UpperDigit(ch as int / 16), UpperDigit(ch as int % 16);
      assert EscapeChar(chars, ch) == ['%', first, second];
      UnescapePair(first, second, rest);
    }
  }

  lemma GoodCharComesBack(chars: CharType, s: string)
    requires s != "" && Writable(chars, s[0])
    ensures EscapedAndBack(chars, s) == [s[0]] + EscapedAndBack(chars, s[1..])
  {
    WritableComesBack(chars, s[0], Escape(chars, s[1..]));
  }

  /** The last six of the eight digits of a sign-extended byte. */
  function HighDigits(ch: char): (s: string)
    ensures |s| == 6 && '%' !in s && (ch == 0xFF as char ==> s == "FFFFFF")
  {
    "FFFF" + [UpperDigit(8 + ch as int % 0x80 / 16), UpperDigit(ch as int % 16)]
  }

  /** A sign-extended byte comes back as 0xFF and six digits. */
  lemma HighCharExpands(chars: CharType, s: string)
    requires s != "" && chars.SignedChar? && 0x80 <= s[0] as int
    ensures EscapedAndBack(chars, s) == [0xFF as char] + (HighDigits(s[0]) + EscapedAndBack(chars, s[1..]))
  {
    var digits, rest := HighDigits(s[0]), Escape(chars, s[1..]);
    assert EscapeChar(chars, s[0]) == ['%', 'F', 'F'] + digits;
    ConcatAssociates(['%', 'F', 'F'], digits, rest);
    UnescapePair('F', 'F', digits + rest);
    UnescapePlain(digits, rest);
  }

  /** A byte below 0x10 is written with one digit.  It vanishes at the end, takes the following
      character along if that looks like a digit, and otherwise leaves a '%' and a digit, behind
      which an escaped character loses its '%'. */
  lemma LowCharGoesWrong(chars: CharType, s: string)
    requires s != "" && s[0] as int < 0x10
    ensures |s| == 1 ==> EscapedAndBack(chars, s) == ""
    ensures |s| > 1 && IsUnreserved(s[1]) && IsHex(s[1]) ==>
              EscapedAndBack(chars, s) == [(s[0] as int * 16 + HexDigit(s[1])) as char] + EscapedAndBack(chars, s[2..])
    ensures |s| > 1 && IsUnreserved(s[1]) && !IsHex(s[1]) ==>
              EscapedAndBack(chars, s) == ['%', LowerDigit(s[0] as int), s[1]] + EscapedAndBack(chars, s[2..])
    ensures |s| > 1 && !IsUnreserved(s[1]) ==>
              EscapedAndBack(chars, s) ==
              ['%', LowerDigit(s[0] as int), '%'] + (IntHex(chars, s[1]) + EscapedAndBack(chars, s[2..]))
  {
    var digit := UpperDigit(s[0] as int);
    var rest := Escape(chars, s[1..]);
    var all := Escape(chars, s);
    assert all == ['%', digit] + rest;
    assert all[1..][1..] == rest;
    assert UnescapeFrom(Default, all) == UnescapeFrom(Percent, all[1..]);
    assert UnescapeFrom(Percent, all[1..]) == UnescapeFrom(FirstHex(s[0] as int), rest);
    if |s| > 1 {
      assert s[1..][1..] == s[2..];
      AfterFirstDigit(chars, s[0] as int, s[1], Escape(chars, s[2..]));
    }
  }

  /** What becomes of a character behind a lone '%' and digit. */
  lemma AfterFirstDigit(chars: CharType, digit: nat, ch: char, rest: string)
    requires digit < 16
    ensures UnescapeFrom(FirstHex(digit), EscapeChar(chars, ch) + rest) ==
            if !IsUnreserved(ch) then ['%', LowerDigit(digit), '%'] + (IntHex(chars, ch) + Unescape(rest))
            else if IsHex(ch) then [(digit * 16 + HexDigit(ch)) as char] + Unescape(rest)
            else ['%', LowerDigit(digit), ch] + Unescape(rest)
  {
    var s := EscapeChar(chars, ch) + rest;
    if IsUnreserved(ch) {
      assert s[1..] == rest;
    } else {
      assert s[1..] == IntHex(chars, ch) + rest;
      UnescapePlain(IntHex(chars, ch), rest);
    }
  }

  // ---- A weight that every misread byte lowers ----

  function CharWeight(ch: char): int {
    if ch as int >= 0x100 then 2000
    else if ch == '\0' then 1100
    else if ch as int < 0x10 then 1000
    else if ch == 'F' then -1
    else if ch == '0' then 1
    else 0
  }

  function Weight(s: string): int {
    if s == "" then 0 else CharWeight(s[0]) + Weight(s[1..])
  }

  lemma {:induction false} WeightConcat(a: string, b: string)
    ensures Weight(a + b) == Weight(a) + Weight(b)
  {
    if a == "" {
      assert a + b == b;
    } else {
      assert (a + b)[1..] == a[1..] + b;
      WeightConcat(a[1..], b);
    }
  }

  lemma PairWeight(first: char, second: char)
    ensures Weight([first, second]) == CharWeight(first) + CharWeight(second)
  {
    assert [first, second][1..] == [second] && [second][1..] == "";
    assert Weight([second]) == CharWeight(second) + Weight("");
  }

  lemma TripleWeight(first: char, second: char, third: char)
    ensures Weight([first, second, third]) == CharWeight(first) + CharWeight(second) + CharWeight(third)
  {
    assert [first, second, third][1..] == [second, third];
    PairWeight(second, third);
  }

  lemma DigitsWeigh(first: nat, second: nat)
    requires first < 16 && second < 16
    ensures Weight([UpperDigit(first), UpperDigit(second)]) <= 2
    ensures 8 <= first ==> Weight("FFFF" + [UpperDigit(first), UpperDigit(second)]) < 0
  {
    var digits := [UpperDigit(first), UpperDigit(second)];
    PairWeight(UpperDigit(first), UpperDigit(second));
    WeightConcat("FFFF", digits);
    assert "FFFF" == ['F', 'F'] + ['F', 'F'];
    WeightConcat(['F', 'F'], ['F', 'F']);
    PairWeight('F', 'F');
  }

  lemma IntHexWeighs(chars: CharType, ch: char)
    ensures Weight(IntHex(chars, ch)) <= 2
  {
    var byte := ch as int;
    if byte < 0x10 {
    } else if chars.SignedChar? && byte >= 0x80 {
      DigitsWeigh(8 + byte % 0x80 / 16, byte % 16);
      assert IntHex(chars, ch) == ['F', 'F'] + HighDigits(ch);
      WeightConcat(['F', 'F'], HighDigits(ch));
      PairWeight('F', 'F');
    } else {
      DigitsWeigh(byte / 16 % 16, byte % 16);
    }
  }

  lemma GoodCharKeepsWeight(chars: CharType, s: string)
    requires s != "" && Writable(chars, s[0])
    ensures Weight(EscapedAndBack(chars, s)) == CharWeight(s[0]) + Weight(EscapedAndBack(chars, s[1..]))
  {
    GoodCharComesBack(chars, s);
    WeightConcat([s[0]], EscapedAndBack(chars, s[1..]));
  }

  lemma HighCharLosesWeight(chars: CharType, s: string)
    requires s != "" && chars.SignedChar? && 0x80 <= s[0] as int
    ensures Weight(EscapedAndBack(chars, s)) < CharWeight(s[0]) + Weight(EscapedAndBack(chars, s[1..]))
  {
    HighCharExpands(chars, s);
    DigitsWeigh(8 + s[0] as int % 0x80 / 16, s[0] as int % 16);
    WeightConcat(HighDigits(s[0]), EscapedAndBack(chars, s[1..]));
    WeightConcat([0xFF as char], HighDigits(s[0]) + EscapedAndBack(chars, s[1..]));
  }

  /** What is no byte at all comes back as one. */
  lemma WideCharLosesWeight(chars: CharType, s: string)
    requires s != "" && chars.UnsignedChar? && 0x100 <= s[0] as int
    ensures Weight(EscapedAndBack(chars, s)) < CharWeight(s[0]) + Weight(EscapedAndBack(chars, s[1..]))
  {
    var first, second, rest := s[0] as int / 16 % 16, s[0] as int % 16, Escape(chars, s[1..]);
    assert EscapeChar(chars, s[0]) == ['%', UpperDigit(first), UpperDigit(second)];
    UnescapePair(UpperDigit(first), UpperDigit(second), rest);
    WeightConcat([(first * 16 + second) as char], Unescape(rest));
  }

  lemma LowCharLosesWeight(chars: CharType, s: string)
    requires |s| > 1 && s[0] as int < 0x10
    ensures Weight(EscapedAndBack(chars, s))
            < CharWeight(s[0]) + CharWeight(s[1]) + Weight(EscapedAndBack(chars, s[2..]))
  {
    LowCharGoesWrong(chars, s);
    LostWeight(chars, s[0], s[1], EscapedAndBack(chars, s[2..]));
  }

  lemma LostWeight(chars: CharType, low: char, next: char, rest: string)
    requires low as int < 0x10
    ensures !IsUnreserved(next) ==>
              Weight(['%', LowerDigit(low as int), '%'] + (IntHex(chars, next) + rest))
              < CharWeight(low) + CharWeight(next) + Weight(rest)
    ensures IsUnreserved(next) && IsHex(next) ==>
              Weight([(low as int * 16 + HexDigit(next)) as char] + rest)
              < CharWeight(low) + CharWeight(next) + Weight(rest)
    ensures Weight(['%', LowerDigit(low as int), next] + rest) < CharWeight(low) + CharWeight(next) + Weight(rest)
  {
    var digit := LowerDigit(low as int);
    WeightConcat(['%', digit, '%'], IntHex(chars, next) + rest);
    WeightConcat(IntHex(chars, next), rest);
    TripleWeight('%', digit, '%');
    IntHexWeighs(chars, next);
    WeightConcat(['%', digit, next], rest);
    TripleWeight('%', digit, next);
    if IsHex(next) {
      WeightConcat([(low as int * 16 + HexDigit(next)) as char], rest);
      ReadDigitWeighs(low, next);
    }
  }

  /** A byte misread together with a digit weighs less than the two. */
  lemma ReadDigitWeighs(low: char, next: char)
    requires low as int < 0x10 && IsHex(next)
    ensures CharWeight((low as int * 16 + HexDigit(next)) as char) < CharWeight(low) + CharWeight(next)
  {
    assert HexDigit(next) == 0 <==> next == '0';
  }

  /** How many characters are read for the first one. */
  function Taken(s: string): (n: nat)
    requires s != ""
    ensures 1 <= n <= |s|
  {
    if s[0] as int < 0x10 && |s| > 1 then 2 else 1
  }

  lemma MisreadCharLosesWeight(chars: CharType, s: string)
    requires s != "" && !Writable(chars, s[0])
    ensures Weight(EscapedAndBack(chars, s)) < Weight(s[..Taken(s)]) + Weight(EscapedAndBack(chars, s[Taken(s)..]))
  {
    if s[0] as int >= 0x10 {
      assert s[..1] == [s[0]];
      if chars.SignedChar? {
        HighCharLosesWeight(chars, s);
      } else {
        WideCharLosesWeight(chars, s);
      }
    } else if |s| == 1 {
      LowCharGoesWrong(chars, s);
      assert s[..1] == [s[0]];
    } else {
      LowCharLosesWeight(chars, s);
      assert s[..2] == [s[0], s[1]];
      PairWeight(s[0], s[1]);
    }
  }

  lemma SplitWeight(s: string, n: nat)
    requires n <= |s|
    ensures Weight(s) == Weight(s[..n]) + Weight(s[n..])
  {
    assert s == s[..n] + s[n..];
    WeightConcat(s[..n], s[n..]);
  }

  /** What escaping and unescaping takes from the weight. */
  function Loss(chars: CharType, s: string): int {
    Weight(s) - Weight(EscapedAndBack(chars, s))
  }

  lemma LossOfFirst(chars: CharType, s: string)
    requires s != ""
    ensures if Writable(chars, s[0]) then Loss(chars, s) == Loss(chars, s[1..])
            else Loss(chars, s) > Loss(chars, s[Taken(s)..])
  {
    if Writable(chars, s[0]) {
      GoodCharKeepsWeight(chars, s);
    } else {
      MisreadCharLosesWeight(chars, s);
      SplitWeight(s, Taken(s));
    }
  }

  lemma EscapableParts(chars: CharType, s: string, n: nat)
    requires n <= |s|
    ensures Escapable(chars, s) <==> Escapable(chars, s[..n]) && Escapable(chars, s[n..])
  {
    assert s == s[..n] + s[n..];
  }

  lemma {:induction false} LossIsExact(chars: CharType, s: string)
    ensures Loss(chars, s) >= 0 && (Loss(chars, s) == 0 <==> Escapable(chars, s))
    decreases |s|
  {
    if s != "" {
      var n := if Writable(chars, s[0]) then 1 else Taken(s);
      LossOfFirst(chars, s);
      LossIsExact(chars, s[n..]);
      EscapableParts(chars, s, n);
      assert s[..n][0] == s[0];
    }
  }

  /** Escaping and unescaping never adds weight, and keeps it exactly when every byte is in
      0x10..0x7F, or in 0x10..0xFF if char is unsigned. */
  lemma WeightDrops(chars: CharType, s: string)
    ensures Weight(EscapedAndBack(chars, s)) <= Weight(s)
    ensures Weight(EscapedAndBack(chars, s)) == Weight(s) <==> Escapable(chars, s)
  {
    LossIsExact(chars, s);
  }

  /** Escaping is undone by unescaping exactly when every byte is in 0x10..0x7F, or in 0x10..0xFF if
      char is unsigned. */
  lemma {:induction false} EscapeRoundTrip(chars: CharType, s: string)
    ensures EscapedAndBack(chars, s) == s <==> Escapable(chars, s)
    decreases |s|
  {
    WeightDrops(chars, s);
    if s != "" && Escapable(chars, s) {
      GoodCharComesBack(chars, s);
      EscapeRoundTrip(chars, s[1..]);
      assert s == [s[0]] + s[1..];
    }
  }

  // ---- What is written ----

  /** The unreserved characters of section 2.3 of RFC 3986, by their codes. */
  lemma UnreservedCharacters(ch: char)
    ensures var code := ch as int;
            IsUnreserved(ch) <==>
              || 0x41 <= code <= 0x5A || 0x61 <= code <= 0x7A || 0x30 <= code <= 0x39
              || code == 0x2D || code == 0x2E || code == 0x5F || code == 0x7E
  {
  }

  /** An escaped string holds only unreserved characters and '%', and is the string itself exactly when
      that holds only unreserved characters: nothing is escaped without need, and nothing reserved is
      left. */
  lemma {:induction false} EscapesWhatIsReserved(chars: CharType, s: string)
    ensures forall i | 0 <= i < |Escape(chars, s)| :: IsUnreserved(Escape(chars, s)[i]) || Escape(chars, s)[i] == '%'
    ensures Escape(chars, s) == s <==> forall i | 0 <= i < |s| :: IsUnreserved(s[i])
  {
    if s != "" {
      EscapesWhatIsReserved(chars, s[1..]);
      EscapeCharLength(chars, s);
      assert s == [s[0]] + s[1..];
      if IsUnreserved(s[0]) {
        assert Escape(chars, s)[1..] == Escape(chars, s[1..]);
      }
    }
  }

  lemma {:induction false} EscapeCharLength(chars: CharType, s: string)
    ensures |Escape(chars, s)| >= |s|
    ensures s != "" && !IsUnreserved(s[0]) ==> |Escape(chars, s)| > |s|
  {
    if s != "" {
      EscapeCharLength(chars, s[1..]);
    }
  }
}
