/**
 Query strings as lists of key-value pairs, and the strings that unescaping leaves alone.
 */
module QueryValues {
  import opened HexParsing
  import opened QueryEncoding

  type Pair = (string, string)

  function IndexOf(s: string, ch: char): (i: nat)
    ensures i <= |s| && ch !in s[..i] && (i < |s| ==> s[i] == ch)
  {
    if s == "" || s[0] == ch then 0
    else
      var i := IndexOf(s[1..], ch);
      assert s[..i + 1] == [s[0]] + s[1..][..i];
      i + 1
  }

  /** The piece before the first '=', and the piece behind it. */
  function KeyPart(piece: string): string {
    piece[..IndexOf(piece, '=')]
  }

  function ValuePart(piece: string): string {
    var i := IndexOf(piece, '=');
    if i < |piece| then piece[i + 1..] else ""
  }

  function PairOf(piece: string): Pair {
    (Unescape(KeyPart(piece)), Unescape(ValuePart(piece)))
  }

  /** The pairs of a query in the order they are inserted: one for each piece between '&'s,
      but none for a last piece without a key. */
  function Pairs(query: string): seq<Pair> {
    var i := IndexOf(query, '&');
    if i == |query| then
      if KeyPart(query) == "" then [] else [PairOf(query)]
    else
      [PairOf(query[..i])] + Pairs(query[i + 1..])
  }

  lemma {:induction false} IndexOfFirst(s: string, t: string, ch: char)
    requires ch !in s
    ensures IndexOf(s + t, ch) == |s| + IndexOf(t, ch)
  {
    if s == "" {
      assert s + t == t;
    } else {
      assert (s + t)[1..] == s[1..] + t;
      IndexOfFirst(s[1..], t, ch);
    }
  }

  /** One more character of a piece. */
  lemma PieceGrows(piece: string, ch: char)
    ensures '=' !in piece && ch != '=' ==> '=' !in piece + [ch] && KeyPart(piece + [ch]) == piece + [ch]
    ensures '=' !in piece && ch == '=' ==> KeyPart(piece + [ch]) == piece && ValuePart(piece + [ch]) == ""
    ensures '=' in piece ==>
              KeyPart(piece + [ch]) == KeyPart(piece) && ValuePart(piece + [ch]) == ValuePart(piece) + [ch]
  {
    if '=' in piece {
      ValueGrows(piece, ch);
    } else {
      IndexOfFirst(piece, [ch], '=');
      assert (piece + [ch])[..|piece|] == piece;
    }
  }

  lemma ValueGrows(piece: string, ch: char)
    requires '=' in piece
    ensures KeyPart(piece + [ch]) == KeyPart(piece) && ValuePart(piece + [ch]) == ValuePart(piece) + [ch]
  {
    var i := IndexOf(piece, '=');
    var key, behind := piece[..i], piece[i..];
    assert piece + [ch] == key + (behind + [ch]);
    IndexOfFirst(key, behind + [ch], '=');
    assert IndexOf(behind + [ch], '=') == 0;
  }

  /** The next '&' ends a piece. */
  lemma PieceEnds(piece: string, rest: string)
    requires '&' !in piece
    ensures Pairs(piece + ['&'] + rest) == [PairOf(piece)] + Pairs(rest)
  {
    var query := piece + ['&'] + rest;
    assert query == piece + (['&'] + rest);
    IndexOfFirst(piece, ['&'] + rest, '&');
    assert query[..|piece|] == piece && query[|piece| + 1..] == rest;
  }

  lemma LastPiece(piece: string)
    requires '&' !in piece
    ensures Pairs(piece) == if KeyPart(piece) == "" then [] else [PairOf(piece)]
  {
    IndexOfFirst(piece, "", '&');
    assert piece + "" == piece;
  }

  lemma NoValue(piece: string)
    requires '=' !in piece
    ensures KeyPart(piece) == piece && PairOf(piece) == (Unescape(piece), "")
  {
    IndexOfFirst(piece, "", '=');
    assert piece + "" == piece;
  }

  lemma PairsAssociate(a: seq<Pair>, b: seq<Pair>, c: seq<Pair>)
    ensures (a + b) + c == a + (b + c)
  {
  }

  /** The variables of the parser's loop. */
  datatype Buffers = Buffers(values: seq<Pair>, inValue: bool, key: string, value: string)

  /** The buffers after reading `piece`: the key, and the value once '=' has been seen. */
  ghost predicate Buffered(b: Buffers, piece: string) {
    && '&' !in piece
    && (b.inValue <==> '=' in piece)
    && b.key == KeyPart(piece)
    && (b.inValue ==> b.value == ValuePart(piece))
  }

  method BufferedPair(b: Buffers, ghost piece: string) returns (pair: Pair)
    requires Buffered(b, piece)
    ensures pair == PairOf(piece)
  {
    if b.inValue {
      return (Unescape(b.key), Unescape(b.value));
    }
    NoValue(piece);
    return (Unescape(b.key), "");
  }

  /** A character of a piece. */
  method BufferChar(b: Buffers, ghost piece: string, ch: char) returns (b': Buffers)
    requires Buffered(b, piece) && ch != '&'
    ensures Buffered(b', piece + [ch]) && b'.values == b.values
  {
    PieceGrows(piece, ch);
    if b.inValue {
      return b.(value := b.value + [ch]);
    } else if ch == '=' {
      return b.(value := "", inValue := true);
    } else {
      NoValue(piece);
      return b.(key := b.key + [ch]);
    }
  }

  /** What has been inserted and what the unread text will insert. */
  function Total(b: Buffers, unread: string): seq<Pair> {
    b.values + Pairs(unread)
  }

  /** An '&', with `rest` still to come. */
  method EndPiece(b: Buffers, ghost piece: string, ghost rest: string) returns (b': Buffers)
    requires Buffered(b, piece)
    ensures Buffered(b', "") && Total(b', rest) == Total(b, piece + ['&'] + rest)
  {
    PieceEnds(piece, rest);
    var pair := BufferedPair(b, piece);
    PairsAssociate(b.values, [pair], Pairs(rest));
    b' := b.(values := b.values + [pair], key := "", inValue := false);
  }

  /** The end of the query. */
  method EndQuery(b: Buffers, ghost piece: string) returns (values: seq<Pair>)
    requires Buffered(b, piece)
    ensures values == Total(b, piece)
  {
    LastPiece(piece);
    values := b.values;
    if b.key != "" {
      var pair := BufferedPair(b, piece);
      values := values + [pair];
    }
  }

  lemma UnreadChar(piece: string, query: string, i: nat)
    requires i < |query|
    ensures piece + query[i..] == piece + [query[i]] + query[i + 1..]
    ensures "" + query[i + 1..] == query[i + 1..]
  {
  }

  method ParseQueryValues(query: string) returns (values: seq<Pair>)
    ensures values == Pairs(query)
  {
    var b := Buffers([], false, "", "");
    ghost var piece := "";  // what has been read of the current piece
    assert piece + query == query;
    for i := 0 to |query|
      invariant Buffered(b, piece) && Total(b, piece + query[i..]) == Pairs(query)
    {
      UnreadChar(piece, query, i);
      if query[i] == '&' {
        b := EndPiece(b, piece, query[i + 1..]);
        piece := "";
      } else {
        b := BufferChar(b, piece, query[i]);
        piece := piece + [query[i]];
      }
    }
    assert piece + query[|query|..] == piece;
    values := EndQuery(b, piece);
  }

  // ---- Round trip ----

  function FormatPair(chars: CharType, pair: Pair): string {
    Escape(chars, pair.0) + "=" + Escape(chars, pair.1)
  }

  function FormatQuery(chars: CharType, pairs: seq<Pair>): string {
    if pairs == [] then ""
    else if |pairs| == 1 then FormatPair(chars, pairs[0])
    else FormatPair(chars, pairs[0]) + ['&'] + FormatQuery(chars, pairs[1..])
  }

  function EscapedPairsAndBack(chars: CharType, pairs: seq<Pair>): seq<Pair> {
    if pairs == [] then []
    else
      [(EscapedAndBack(chars, pairs[0].0), EscapedAndBack(chars, pairs[0].1))]
      + EscapedPairsAndBack(chars, pairs[1..])
  }

  lemma {:induction false} EscapeHasNoSeparators(chars: CharType, s: string)
    ensures '=' !in Escape(chars, s) && '&' !in Escape(chars, s) && (Escape(chars, s) == "" <==> s == "")
  {
    if s != "" {
      EscapeHasNoSeparators(chars, s[1..]);
    }
  }

  lemma PartsOf(key: string, value: string)
    requires '=' !in key
    ensures KeyPart(key + "=" + value) == key && ValuePart(key + "=" + value) == value
  {
    var piece := key + "=" + value;
    assert piece == key + ("=" + value);
    IndexOfFirst(key, "=" + value, '=');
    assert piece[..|key|] == key && piece[|key| + 1..] == value;
  }

  lemma FormattedPairParses(chars: CharType, pair: Pair)
    ensures '&' !in FormatPair(chars, pair)
    ensures KeyPart(FormatPair(chars, pair)) == Escape(chars, pair.0)
    ensures PairOf(FormatPair(chars, pair)) == (EscapedAndBack(chars, pair.0), EscapedAndBack(chars, pair.1))
  {
    EscapeHasNoSeparators(chars, pair.0);
    EscapeHasNoSeparators(chars, pair.1);
    PartsOf(Escape(chars, pair.0), Escape(chars, pair.1));
  }

  lemma FirstPairParses(chars: CharType, pairs: seq<Pair>)
    requires |pairs| > 1
    ensures Pairs(FormatQuery(chars, pairs)) ==
            [(EscapedAndBack(chars, pairs[0].0), EscapedAndBack(chars, pairs[0].1))]
            + Pairs(FormatQuery(chars, pairs[1..]))
  {
    FormattedPairParses(chars, pairs[0]);
    PieceEnds(FormatPair(chars, pairs[0]), FormatQuery(chars, pairs[1..]));
  }

  /** The pairs that can be found again: a last one with an empty key cannot. */
  function Findable(pairs: seq<Pair>): seq<Pair> {
    if pairs != [] && pairs[|pairs| - 1].0 == "" then pairs[..|pairs| - 1] else pairs
  }

  lemma FindableTail(pairs: seq<Pair>)
    requires |pairs| > 1
    ensures var f := Findable(pairs);
            f != [] && f[0] == pairs[0] && f[1..] == Findable(pairs[1..])
  {
  }

  /** Whatever the bytes, the separators are found again. */
  lemma {:induction false} FormattedQueryParses(chars: CharType, pairs: seq<Pair>)
    ensures Pairs(FormatQuery(chars, pairs)) == EscapedPairsAndBack(chars, Findable(pairs))
  {
    if pairs == [] {
    } else if |pairs| == 1 {
      FormattedPairParses(chars, pairs[0]);
      EscapeHasNoSeparators(chars, pairs[0].0);
      LastPiece(FormatPair(chars, pairs[0]));
    } else {
      FirstPairParses(chars, pairs);
      FormattedQueryParses(chars, pairs[1..]);
      FindableTail(pairs);
    }
  }

  lemma {:induction false} PairsComeBack(chars: CharType, pairs: seq<Pair>)
    ensures |EscapedPairsAndBack(chars, pairs)| == |pairs|
    ensures EscapedPairsAndBack(chars, pairs) == pairs <==>
            forall i | 0 <= i < |pairs| :: Escapable(chars, pairs[i].0) && Escapable(chars, pairs[i].1)
  {
    if pairs != [] {
      var first, rest := pairs[0], EscapedPairsAndBack(chars, pairs[1..]);
      PairsComeBack(chars, pairs[1..]);
      EscapeRoundTrip(chars, first.0);
      EscapeRoundTrip(chars, first.1);
      assert pairs == [first] + pairs[1..];
      assert EscapedPairsAndBack(chars, pairs)[1..] == rest;
    }
  }

  /** A list of pairs survives as a query exactly when all its bytes are in 0x10..0x7F, or in
      0x10..0xFF if char is unsigned, and the last key is not empty.  Order and duplicates are kept. */
  lemma {:induction false} QueryRoundTrip(chars: CharType, pairs: seq<Pair>)
    ensures Pairs(FormatQuery(chars, pairs)) == pairs <==>
            && (forall i | 0 <= i < |pairs| :: Escapable(chars, pairs[i].0) && Escapable(chars, pairs[i].1))
            && (pairs != [] ==> pairs[|pairs| - 1].0 != "")
  {
    FormattedQueryParses(chars, pairs);
    PairsComeBack(chars, pairs);
    PairsComeBack(chars, Findable(pairs));
  }

  // ---- Keys without values ----

  function FormatKeys(chars: CharType, keys: seq<string>): string {
    if keys == [] then ""
    else if |keys| == 1 then Escape(chars, keys[0])
    else Escape(chars, keys[0]) + ['&'] + FormatKeys(chars, keys[1..])
  }

  function Bare(keys: seq<string>): seq<Pair> {
    if keys == [] then [] else [(keys[0], "")] + Bare(keys[1..])
  }

  /** Keys alone read back with empty values. */
  lemma {:induction false} BareKeysComeBack(chars: CharType, keys: seq<string>)
    requires forall i | 0 <= i < |keys| :: Escapable(chars, keys[i]) && keys[i] != ""
    ensures Pairs(FormatKeys(chars, keys)) == Bare(keys)
  {
    if keys == [] {
      LastPiece("");
      NoValue("");
    } else {
      var piece := Escape(chars, keys[0]);
      EscapeHasNoSeparators(chars, keys[0]);
      EscapeRoundTrip(chars, keys[0]);
      NoValue(piece);
      if |keys| == 1 {
        LastPiece(piece);
        assert Bare(keys[1..]) == [];
      } else {
        BareKeysComeBack(chars, keys[1..]);
        PieceEnds(piece, FormatKeys(chars, keys[1..]));
      }
    }
  }

  // ---- The pairs as an unordered multimap ----

  function TotalWeight(pairs: seq<Pair>): int {
    if pairs == [] then 0 else Weight(pairs[0].0) + Weight(pairs[0].1) + TotalWeight(pairs[1..])
  }

  lemma {:induction false} TotalWithout(pairs: seq<Pair>, i: nat)
    requires i < |pairs|
    ensures TotalWeight(pairs) == Weight(pairs[i].0) + Weight(pairs[i].1) + TotalWeight(pairs[..i] + pairs[i + 1..])
  {
    var without := pairs[..i] + pairs[i + 1..];
    if i == 0 {
      assert without == pairs[1..];
    } else {
      TotalWithout(pairs[1..], i - 1);
      assert without[1..] == pairs[1..][..i - 1] + pairs[1..][i..];
    }
  }

  lemma PairsWithout(pairs: seq<Pair>, i: nat)
    requires i < |pairs|
    ensures multiset(pairs[..i] + pairs[i + 1..]) == multiset(pairs) - multiset{pairs[i]}
  {
    assert pairs == pairs[..i] + [pairs[i]] + pairs[i + 1..];
  }

  lemma FirstAmong(a: seq<Pair>, b: seq<Pair>) returns (i: nat)
    requires a != [] && multiset(a) == multiset(b)
    ensures i < |b| && b[i] == a[0] && multiset(a[1..]) == multiset(b[..i] + b[i + 1..])
  {
    assert a[0] in multiset(a);
    i :| 0 <= i < |b| && b[i] == a[0];
    PairsWithout(a, 0);
    assert a[..0] + a[1..] == a[1..];
    PairsWithout(b, i);
  }

  /** The weight does not depend on the order. */
  lemma {:induction false} SamePairsWeighTheSame(a: seq<Pair>, b: seq<Pair>)
    requires multiset(a) == multiset(b)
    ensures TotalWeight(a) == TotalWeight(b)
  {
    if a == [] {
      assert |multiset(b)| == 0;
    } else {
      var i := FirstAmong(a, b);
      TotalWithout(b, i);
      SamePairsWeighTheSame(a[1..], b[..i] + b[i + 1..]);
    }
  }

  lemma {:induction false} TotalDrops(chars: CharType, pairs: seq<Pair>)
    ensures TotalWeight(EscapedPairsAndBack(chars, pairs)) <= TotalWeight(pairs)
    ensures TotalWeight(EscapedPairsAndBack(chars, pairs)) == TotalWeight(pairs) ==>
              forall i | 0 <= i < |pairs| :: Escapable(chars, pairs[i].0) && Escapable(chars, pairs[i].1)
  {
    if pairs != [] {
      TotalDrops(chars, pairs[1..]);
      WeightDrops(chars, pairs[0].0);
      WeightDrops(chars, pairs[0].1);
      assert EscapedPairsAndBack(chars, pairs)[1..] == EscapedPairsAndBack(chars, pairs[1..]);
    }
  }

  /** As a multimap the pairs survive under the same condition: no misread pair can stand in for
      another one. */
  lemma QueryMultimapRoundTrip(chars: CharType, pairs: seq<Pair>)
    ensures multiset(Pairs(FormatQuery(chars, pairs))) == multiset(pairs) <==> Pairs(FormatQuery(chars, pairs)) == pairs
    ensures multiset(Pairs(FormatQuery(chars, pairs))) == multiset(pairs) <==>
            && (forall i | 0 <= i < |pairs| :: Escapable(chars, pairs[i].0) && Escapable(chars, pairs[i].1))
            && (pairs != [] ==> pairs[|pairs| - 1].0 != "")
  {
    var parsed := Pairs(FormatQuery(chars, pairs));
    QueryRoundTrip(chars, pairs);
    FormattedQueryParses(chars, pairs);
    PairsComeBack(chars, Findable(pairs));
    if multiset(parsed) == multiset(pairs) {
      assert |multiset(parsed)| == |parsed| && |multiset(pairs)| == |pairs|;
      SamePairsWeighTheSame(parsed, pairs);
      TotalDrops(chars, pairs);
    }
  }

  // ---- Fixed points of unescaping ----

  /** Every '%' is followed by a character that is no hex digit, or by a digit other than A to F
      and then such a character. */
  predicate Inert(s: string)
    decreases |s|
  {
    if s == "" then true
    else if s[0] != '%' then Inert(s[1..])
    else
      && |s| > 1
      && if !IsHex(s[1]) then Inert(s[2..])
         else |s| > 2 && !IsHex(s[2]) && !('A' <= s[1] <= 'F') && Inert(s[3..])
  }

  lemma UnescapeCases(s: string)
    requires s != ""
    ensures s[0] != '%' ==> Unescape(s) == [s[0]] + Unescape(s[1..])
    ensures s[0] == '%' && |s| == 1 ==> Unescape(s) == ""
    ensures s[0] == '%' && |s| > 1 && !IsHex(s[1]) ==> Unescape(s) == ['%', s[1]] + Unescape(s[2..])
    ensures s[0] == '%' && |s| == 2 && IsHex(s[1]) ==> Unescape(s) == ""
    ensures s[0] == '%' && |s| > 2 && IsHex(s[1]) && !IsHex(s[2]) ==>
              Unescape(s) == ['%', LowerDigit(HexDigit(s[1])), s[2]] + Unescape(s[3..])
    ensures s[0] == '%' && |s| > 2 && IsHex(s[1]) && IsHex(s[2]) ==>
              Unescape(s) == [(HexDigit(s[1]) * 16 + HexDigit(s[2])) as char] + Unescape(s[3..])
  {
    if s[0] == '%' {
      assert Unescape(s) == UnescapeFrom(Percent, s[1..]);
      if |s| > 1 {
        assert s[1..][1..] == s[2..];
        if |s| > 2 {
          assert s[2..][1..] == s[3..];
        }
      }
    }
  }

  lemma {:induction false} UnescapeNeverGrows(s: string)
    ensures |Unescape(s)| <= |s|
    decreases |s|
  {
    if s != "" {
      UnescapeCases(s);
      UnescapeNeverGrows(s[1..]);
      if |s| > 1 { UnescapeNeverGrows(s[2..]); }
      if |s| > 2 { UnescapeNeverGrows(s[3..]); }
    }
  }

  lemma {:induction false} UnescapeFixes(s: string)
    ensures Unescape(s) == s <==> Inert(s)
    decreases |s|
  {
    if s != "" {
      UnescapeCases(s);
      var n :=
        if s[0] != '%' then 1
        else if |s| > 1 && !IsHex(s[1]) then 2
        else if |s| > 2 && !IsHex(s[2]) then 3
        else 0;
      if n > 0 {
        UnescapeFixes(s[n..]);
        assert s == s[..n] + s[n..];
        assert Unescape(s)[n..] == Unescape(s[n..]);
      } else if |s| > 2 {
        UnescapeNeverGrows(s[3..]);
      }
    }
  }
}
